# A verified model of the NATS load tester

The load tester takes configurations over HTTP, runs the load test specifications of the newest one
against a NATS server, and keeps statistics of every run. This project models the parts of it whose
behaviour is decided by its own code and proves what they promise, for every input, every run or every
interleaving.

| files | what they model |
|---|---|
| `ManagerProtocol`, `ManagerSafety`, `ManagerTheorems` | the manager's configuration loop, the senders and the worker goroutines, as a transition system with one action for each statement another goroutine can observe |
| `Setup`, `Engine`, `ProcessConfig` | setting up streams and starting consumers, with retries under the worker's context; the engine's lifecycle; one worker's run over the specifications of a configuration |
| `ManagerWorker` | the manager's loop waiting for a worker that may never return |
| `StatsModel`, `FileStorage`, `FileReopen` | a history of writes; the file storage with its bounded caches and its all-or-nothing rewrite; closing and reopening it |
| `Decimal`, `BadgerKeys`, `BadgerStorage`, `BackendAgreement` | printed numbers and their order, the keys of the Badger storage, its scans, and how the two storages compare |
| `ErrorWindow`, `LatencySummary`, `Collector`, `CollectorTheorems` | the statistics collector: the bounded windows of errors and latencies, the latency figures, the draining snapshot, and what a run conserves |
| `Float64` | rounding to float64: monotone, exact on integers of 53 digits, with its relative error and carries |
| `Scaling`, `LoadTestSpec` | repeated multiplication in float64, truncated to an integer each time, and the repetition of a specification |
| `Naming`, `FanOut` | placeholders, stream names and subjects; which publishers and consumers are created and how they are named |
| `RampUp`, `RampUpShare`, `Backoff` | the publishers' rates and tickers next to the ramp-up, and that the rates are the share of the target that has passed; retries with capped waits |
| `Sequences` | small facts about sequences that several of these share |

`dafny verify dfyconfig.toml` checks everything.

How it is modelled: answers of the NATS library, the file system, the clock, random draws and the
scheduler are parameters or free choices. A history of writes (`StatsModel.Op`) and a log of collector events
(`CollectorModel.Event`) are the reference the two storages and the collector are proved against. Code that updates
fields is a class or a method with the same loops; what it computes is stated by a function or a
predicate, and the theorems are lemmas about those.

## What the code does not do

Some promises hold only under a condition; the model keeps the code as it is and states the condition exactly.

- A failed `createStorage` leaves its configuration published although no worker runs it (`ManagerTheorems.PublishedWhenIdle`, with a run in `ManagerTheorems.FailedStorageStaysPublished`). Sending it again is answered as unchanged and does not try again (`ManagerTheorems.TurnedAwayIff`).
- `Manager.run` returns on cancellation without waiting for its worker (`ManagerTheorems.ReturnAbandonsWorker`). The 30-second arm of the draining select can never be chosen because of the `default` beside it, so draining ends at the first empty channel.
- A repeating worker looks at its cancelled context only after a successful `Start`, and under a cancelled context no stream can be set up and no consumer started. So a worker cancelled anywhere but in the select of an execution, say while `Start` is setting up, goes on for ever, scaling its specification each turn, unless some later specification needs no stream and no consumer (`ProcessConfig.CancelledReturnsIff`); a validated one always needs both (`ProcessConfig.SettledNeverReturns`, with a small example in `ProcessConfig.CancelledWhileStarting`). It keeps the mutex, and the newer configuration for whose sake it was cancelled is never applied (`ManagerWorker.NewerAppliedIff`, `ManagerWorker.NewerNeverApplied`).
- A connection that clean-up finds disconnected is dropped, not closed; no connection is left over exactly when that never happens (`ProcessConfig.RunWorker`). A failed `Start` cancels its errgroup but does not wait for it (`EngineLifecycle.Engine.Start`); if a later `Start` gets as far as creating another, nobody ever does, and that group's tasks may outlive the storage (`ProcessConfig.PassedIff`).
- Recording an error panics exactly when `max_lines` is not positive, as when `log_limits` is omitted, or when no specification has been set (`CollectorModel.Collector.RecordError`).
- JSON cannot decode a non-empty list of Go errors. Loading a file skips such entries, and every failure a collector writes is one, so none survives a reopening (`FileReopen.SessionForgetsFailures`); a Badger read stops at the first of them with an error (`BadgerStore.ErrorAfter`).
- With a limit the file storage returns the newest entries and Badger the oldest; a negative limit is none for the one and admits nothing for the other (`BackendAgreement.AgreeIff`). Two Badger writes of one millisecond share a key, and a cut-off acts on Badger like the next whole millisecond (`BackendAgreement.RoundingSeenIff`). Two writes and limit 1 are enough for different answers (`BackendAgreement.LimitOneDisagrees`).
- Keys need not sort by time across a change of the number's width (`BackendAgreement.IncreasingKeysAscendIff` says exactly when, `Decimal.NineSortsAfterTen` gives an example).
- After a rewrite whose old handle could not be closed or whose new one could not be opened, every later write reports an error, until `Clear` (`FileStore.FileStorage.WriteStats`, `FileStore.FileStorage.Clear`). A write that reports an error is in the cache all the same.
- The documentation says every repeat multiplier defaults to 1.0; an omitted ramp-up multiplier stays 0 and drops the ramp-up, and a multiplier of 1 keeps a 64-bit number exactly if float64 represents it (`LoadTestSpecs.OmittedMultipliers`).
- Repetition keeps a specification valid in the long run only if it stops changing it at the first turn, where a 64-bit number may be rounded: a field that shrinks goes on to zero, and one that grows goes on until it overflows its type, and what then is there may be negative (`LoadTestSpecs.StaysValidIffSettled`). Products are rounded before they are truncated, so 5 times 1.2 is 6 although the float64 1.2 is less than that (`Scaling.FiveGrows`).
- A negative message size panics as soon as a publisher is created, like a negative number of streams (`FanOut.CreatePublishers`); validation refuses both, an overflow may bring them about.
- Two entries of the stream list may share the prefix that publishers and consumers name; their members then share IDs and durable names (`FanOut.NamesDifferIff`).
- A publisher stores its first rate of 1 from its own goroutine. If that comes after the ramp-up has completed, the rate stays 1 (`RampUp.CompletionReachesTarget`, `RampUp.CompletedTooEarly`). It then reads the rate once for its ticker and once more for comparing later; a rate that arrives between the reads and stays is never followed (`RampUp.TickerFollowsRate`, `RampUp.FullRateWithoutRampUp`).
- A ticker panics above a rate of 10^9, with the random pattern above 5 * 10^8 for some draws (`RampUp.ArmedIff`).
- Creating a stream is retried with a cap of 5 nanoseconds where deleting it has 5 seconds (`Backoff.CreationHardlyWaits`).

## Model

| member | source | states |
|---|---|---|
| ManagerSafety.Reachable | internal/loadtest/manager.go:58-132 | Every state that any interleaving of senders, loop, workers and cancellation reaches satisfies the mutex, context, storage, publication and attempt invariants |
| ManagerSafety.InvPreserved | internal/loadtest/manager.go:58-132 | The five-part invariant is inductive over every action of the loop and of the worker |
| ManagerTheorems.MutexIsHandedOver | internal/loadtest/manager.go:76-130 | The mutex is locked exactly while the loop is in its critical section or the one worker lives, never both; no Unlock finds it unlocked and locks exceed unlocks by at most the one outstanding |
| ManagerTheorems.StorageIsExclusive | internal/loadtest/manager.go:96-121 | At most one storage is open, only with the mutex held; a published collector writes to an open storage, and a worker's storage is the open one until it closes it |
| ManagerTheorems.WaiterHasCancelled | internal/loadtest/manager.go:63-76 | A living worker's cancel function is the last one kept; when the loop waits for the mutex its holder is cancelled, and a worker is cancelled only by a newer configuration or the root context |
| ManagerTheorems.ContextsAreCancelled | internal/loadtest/manager.go:63-99 | Every context but the last one made has been cancelled; that one too while a newer configuration waits or drains, after its own createStorage has failed, and once the loop has returned |
| ManagerTheorems.PublishedWhenIdle | internal/loadtest/manager.go:92-102 | With the mutex free no collector is published, and a configuration is exactly when the last createStorage failed, namely that one |
| ManagerTheorems.FailedStorageStaysPublished | internal/loadtest/manager.go:92-102 | A run of one configuration whose createStorage fails ends with it published, no worker and the mutex free |
| ManagerTheorems.TurnedAwayIff | internal/controlplane/handlers.go:29-53 | With the mutex free, the handler answers a configuration as unchanged, without queueing it, exactly when the last createStorage failed for one of the same hash |
| ManagerTheorems.TurnedAwayWhileRunning | internal/controlplane/handlers.go:29-53 | While a worker lives, exactly when its configuration has that hash now and it has not withdrawn it yet |
| ManagerTheorems.RepliesIff | internal/controlplane/handlers.go:29-53 | A configuration of another hash is queued exactly if the channel has room, and refused exactly if 100 are in it |
| ManagerTheorems.QueueIsBounded | internal/controlplane/handlers.go:47-53 | No interleaving puts more than 100 configurations into the channel |
| ManagerTheorems.ResendDoesNothing | internal/controlplane/handlers.go:29-45 | After the run with the failed createStorage, sending the same configuration again is answered as unchanged |
| ManagerTheorems.LedgerFollows | internal/loadtest/manager.go:69-94 | What an action does to the sent, queued, held, published and skipped configurations, and that worker steps do nothing to them |
| ManagerTheorems.Supersession | internal/loadtest/manager.go:69-94 | Sent configurations are taken in order; the published ones form a subsequence, all others taken were skipped while draining, none is lost or repeated, the rest is still queued |
| ManagerTheorems.DrainEndsAtNewest | internal/loadtest/manager.go:78-89 | The configuration published after draining is the newest one sent by the time the channel was found empty |
| ManagerTheorems.IdleIsUpToDate | internal/controlplane/handlers.go:47-53 | An idle loop with an empty channel has last published the newest configuration sent, and published plus skipped are all that were sent |
| ManagerTheorems.NeverStuck | internal/loadtest/manager.go:61-130 | Outside its select the loop, or a worker whose processConfig has returned, can always move without a sender's or the root context's help, unless the loop waits for the mutex of a worker whose processConfig is cancelled but has not returned; whether that one returns is ProcessConfig.CancelledReturnsIff, and what follows ManagerWorker.NewerAppliedIff |
| ManagerTheorems.TeardownReleases | internal/loadtest/manager.go:109-125 | When processConfig returns, which is the first of these steps, the worker's own steps run alone end with collector and configuration withdrawn, storage closed and mutex free; from any later point the rest of them do |
| ManagerTheorems.ReturnAbandonsWorker | internal/loadtest/manager.go:63-67 | From its select the loop can return after root cancellation with worker, storage and mutex as they were |
| ManagerWorker.StillWaiting | internal/loadtest/manager.go:72-92 | While the loop waits for the mutex and processConfig does not return, no continuation publishes, applies, closes or hands over anything; configurations only queue up |
| ManagerWorker.GetsMutexIff | internal/loadtest/manager.go:72-130 | The waiting loop gets the mutex in some continuation exactly if processConfig returns |
| ManagerWorker.NewerAppliedIff | internal/loadtest/manager.go:72-210 | With a repeating worker cancelled outside a select it does exactly if some later Start connects, needs no stream and no consumer, and takes the Done arm |
| ManagerWorker.NewerWaits | internal/loadtest/manager.go:58-130 | A run in which the loop waits so, holding a newer configuration |
| ManagerWorker.NewerNeverApplied | internal/loadtest/manager.go:72-210 | For a worker with a small validated specification, cancelled before its first Start sets anything up, the loop holds the newer configuration in every continuation |
| EngineLifecycle.Engine.constructor | internal/engine/engine.go:33-43 | A new engine is cleared, with no connection and no errgroup |
| EngineLifecycle.Engine.Connect | internal/engine/engine.go:127-168 | Success exactly when the connection and, if wanted, JetStream are made; a failed JetStream closes the new connection but leaves the field |
| EngineLifecycle.Engine.Cleanup | internal/engine/engine.go:170-203 | All six fields are cleared, the current connection is closed exactly if it is connected, and the current group and no other is cancelled |
| EngineLifecycle.Engine.Start | internal/engine/engine.go:45-105 | Success exactly when connecting succeeds and, where wanted, JetStream, the set-up of every stream and the start of every consumer, each retried under the context. The whole resulting state: on success collector set, group collecting and ramping up; on failure after the connection was made also collecting, but cleared, the connection closed exactly if connected, and this group and no other cancelled, though not waited for; on failure before, a failure written |
| EngineLifecycle.DoneSucceedsIff | internal/engine/engine.go:45-105 | Under a context done before its first use, Start succeeds exactly if it connects, has no stream to set up (or no JetStream) and no consumer to start (or consumers disabled) |
| EngineLifecycle.ValidatedHasBoth | internal/config/config.go:506-540 | A validated specification has at least one stream and one consumer |
| EngineLifecycle.ConsumersAreCreated | internal/engine/consumer.go:231-291 | As many consumers are started as are created, one for every place |
| Setup.SetupStreams | internal/engine/stream.go:29-81 | The loops succeed exactly if no count is negative and deleting and creating succeeds, within five attempts each, for every stream of every entry; they panic only on a negative count |
| Setup.StartConsumers | internal/engine/consumer.go:260-298 | Starting succeeds exactly if every single consumer is started within its five attempts |
| Setup.DoneStreamsFail | internal/engine/stream.go:56-76 | Under a done context streams are set up exactly if there are none |
| Setup.DoneConsumersFail | internal/engine/consumer.go:261-298 | Under a done context consumers are started exactly if there are none |
| EngineLifecycle.Engine.Stop | internal/engine/engine.go:107-125 | The engine ends cleared, its group and no other is cancelled and waited for, and its connection closed exactly if connected; stopping again changes nothing and reports the same error |
| ProcessConfig.ExecutionsMirror | internal/loadtest/manager.go:134-215 | Every list of specifications and everything that may be met determine a run, whose executions are those of the plan |
| ProcessConfig.StartsInOrderAndAlone | internal/loadtest/manager.go:159-210 | No Start is called while an earlier successful one is unstopped; the i-th specification started is the i-th of the list, and beyond its end the last one, scaled once more each time |
| ProcessConfig.RunSpec | internal/loadtest/manager.go:135-157 | One execution makes exactly the engine calls of its outcome, is done only when cancelled after a successful Start, and loses its connection exactly when clean-up finds it disconnected |
| ProcessConfig.Run | internal/loadtest/manager.go:134-215 | The calls the engine has seen start the specifications in the order of the list, one after the other, then the last again and again; the run returns by cancellation or at the end of a list that does not repeat, and in no other way |
| ProcessConfig.RunWorker | internal/loadtest/manager.go:108-129 | With the deferred Stop the engine ends cleared and stopped, having started the specifications in list order, one after the other; no connection is left open exactly when every clean-up found its connection connected, and every errgroup has been waited for exactly unless one is passed over; the worker returns exactly when an execution is cancelled after a successful Start or a list that does not repeat ends |
| ProcessConfig.PassedIff | internal/engine/engine.go:63-105 | An errgroup is passed over exactly if its Start fails after creating it and a later Start creates another |
| ProcessConfig.CancelledReturnsIff | internal/loadtest/manager.go:135-148 | A repeating worker whose context is done before some Start returns exactly if that or a later Start connects, has no stream to set up and no consumer to start, and then takes the Done arm |
| ProcessConfig.ValidatedNeverReturns | internal/loadtest/manager.go:178-210 | So with validated specifications, and JetStream or consumers, it never does |
| ProcessConfig.SettledNeverReturns | internal/loadtest/manager.go:178-210 | ... nor with a validated last specification that settles, whatever number of repetitions has scaled it |
| ProcessConfig.SmallKeepsValid | internal/config/config.go:473-491 | With every multiplier 1 the repetitions of a small specification are itself, and it settles: what SettledNeverReturns asks for can be met |
| ProcessConfig.CancelledWhileStarting | internal/loadtest/manager.go:178-210 | A small validated specification with which a worker cancelled before its first set-up starts again and again |
| ProcessConfig.FailuresNeverEnd | internal/loadtest/manager.go:178-210 | An engine that cannot connect keeps a repeating worker going however long one looks |
| FileStore.RepresentsStep | internal/stats/file_storage.go:223-233 | One step on a cache keeps it equal to the newest ten entries of every hash in the history |
| FileStore.NewFileStorage | internal/stats/file_storage.go:33-75 | Refused exactly when opening or reading fails; otherwise the storage represents the decodable lines of the file as its history, its caches the newest ten of every hash |
| FileStore.FileStorage.LoadFromFile | internal/stats/file_storage.go:358-385 | Loading replays the decodable lines in order and skips the others; a read error anywhere fails it |
| FileStore.FileStorage.AddToCache | internal/stats/file_storage.go:223-233 | The entries of the hash become the last ten of those before and the new one; other hashes stay |
| FileStore.FileStorage.WriteStats | internal/stats/file_storage.go:77-94 | The history grows by this write whether or not it reports an error; the file holds the complete old or the complete new content throughout; success means the file equals the caches; a stale handle fails this and later writes |
| FileStore.FileStorage.WriteFailure | internal/stats/file_storage.go:96-113 | The same for failures, with the statistics untouched |
| FileStore.FileStorage.Get | internal/stats/file_storage.go:115-165 | After any run of writes and clears, of the not-too-old among the last ten writes of the kind and hash since the last Clear: the last `limit`, or all if there are no more or the limit is not positive |
| FileStore.FileStorage.Filter | internal/stats/file_storage.go:124-131 | The filter loop keeps the entries not before the cut-off: those that StatsModel.NotBeforeSifts describes |
| StatsModel.NotBeforeSifts | internal/stats/file_storage.go:124-131 | What is kept are the entries at exactly those positions whose time is not before the cut-off, in their order |
| FileStore.FileStorage.Close | internal/stats/file_storage.go:167-195 | Closing drops the handle in every case, and fails exactly on an open file that cannot be closed or one closed before |
| FileStore.FileStorage.Clear | internal/stats/file_storage.go:197-221 | The caches are emptied in every case; the file is emptied and any handle made usable, or the old content stays and an error is returned |
| FileStore.FileStorage.RewriteEntireFile | internal/stats/file_storage.go:235-296 | Whatever operation fails, every content seen is the complete old or the complete new one; a failure up to the rename leaves content and handle as they were, one after it leaves the new content and a handle that cannot be used |
| FileStore.FileStorage.WriteAllData | internal/stats/file_storage.go:298-336 | In whatever order the maps yield their keys, the temporary file becomes a complete image of both caches while the real one stays untouched |
| FileReopen.LineRoundTrip | internal/stats/file_storage.go:366-368 | A written line loads as the write it came from, or not at all if it carries errors |
| FileReopen.ReopenRebuilds | internal/stats/file_storage.go:298-385 | Loading any complete image, for every order of the keys, gives for each hash and kind the decodable cached entries in order, and evicts nothing |
| FileReopen.RunAndReopen | internal/stats/file_storage.go:33-233 | Whatever the file holds at first, any writes and clears without a fault, closing and reopening: both caches hold exactly the decodable among the last ten entries of every hash, those the file held included |
| FileReopen.ReadsAreSuffixes | internal/stats/file_storage.go:115-139 | While timestamps do not decrease, a read with any limit and cut-off is a suffix of the writes since the last Clear |
| FileReopen.FailuresAreForgotten | internal/stats/collector.go:281-298 | Nothing survives of failures that come from a collector, whatever else is written or cleared |
| FileReopen.SessionForgetsFailures | internal/stats/file_storage.go:358-385 | On a file from which no failure is read, a session with a collector's writes leaves one from which none is read again; so it stays from session to session |
| Decimal.ParsePrintInt | internal/stats/badger_storage.go:153-162 | Parsing a printed 64-bit integer gives it back |
| Decimal.PrintIntIsInjective | internal/stats/badger_storage.go:79 | Different integers are printed differently |
| Decimal.PrintedOrder | internal/stats/badger_storage.go:79 | Of two numbers the smaller is printed lexicographically first exactly when both are equally wide or it does not exceed the other's leading digits |
| Decimal.NineSortsAfterTen | internal/stats/badger_storage.go:79 | Across a change of width the printed order is not the order of the numbers |
| BadgerKeys.KeyRoundTrip | internal/stats/badger_storage.go:79-161 | Splitting a printed key at its colons and parsing gives back kind, hash and millisecond |
| BadgerKeys.KeyIsInjective | internal/stats/badger_storage.go:79-96 | Equal keys come from the same kind, hash and millisecond |
| BadgerKeys.PrefixSelects | internal/stats/badger_storage.go:131-140 | The prefix of a kind and hash begins exactly the keys of that kind and hash |
| BadgerKeys.KindPrefixSelects | internal/stats/badger_storage.go:130-134 | The prefix used without a hash begins exactly the keys of the kind |
| BadgerKeys.KeyOrder | internal/stats/badger_storage.go:73-88 | Within one hash, key order is time order for timestamps printed equally wide |
| BadgerStore.PutMembers | internal/stats/badger_storage.go:84-87 | After a put the map holds the new item and all old ones under other keys |
| BadgerStore.PutSorts | internal/stats/badger_storage.go:84-87 | A put keeps the map ordered by key |
| BadgerStore.WriteMirrored | internal/stats/badger_storage.go:73-105 | The map holds under every key the last value written there since the last Clear, and a write keeps it so |
| BadgerStore.BadgerStorage.Write | internal/stats/badger_storage.go:73-105 | A successful write extends the history the map mirrors; a failed transaction changes nothing |
| BadgerStore.BadgerStorage.Clear | internal/stats/badger_storage.go:123-125 | Clearing empties the map and restarts the history's view, or fails and changes nothing |
| BadgerStore.ScanFindsAll | internal/stats/badger_storage.go:135-140 | Seeking the prefix and going on while keys have it meets exactly the keys that have it |
| BadgerStore.Scan | internal/stats/badger_storage.go:127-189 | The loop returns the oldest `limit` of the shown items, or all before the first that does not decode, and then an error |
| BadgerStore.BadgerStorage.Get | internal/stats/badger_storage.go:127-253 | A read of statistics or failures is such a scan over all keys with the prefix of the hash, or of the kind when there is no hash: it returns the first `limit` of what is shown, all if there are no more or the limit is 0, nothing for a negative limit, or what precedes the first entry that does not decode |
| BadgerStore.StopsAtUndecodable | internal/stats/badger_storage.go:167-182 | Meeting an entry that does not decode, the scan has returned exactly what comes before it |
| BackendAgreement.PrefixHoldsOwnWrites | internal/stats/badger_storage.go:131-140 | Under its prefix the database holds exactly the last write of each millisecond of that kind and hash, and nothing of another |
| BackendAgreement.ScanIsViewIffAscending | internal/stats/badger_storage.go:127-189 | A scan meets the writes in the order they were made, each once, exactly when their printed milliseconds ascend |
| BackendAgreement.IncreasingKeysAscendIff | internal/stats/badger_storage.go:79 | Increasing milliseconds are printed in ascending order exactly when each is as wide as any later one or does not exceed its leading digits |
| BackendAgreement.ShownItem | internal/stats/badger_storage.go:144-167 | The key printed for a write is read back as its hash and its millisecond, and the write is skipped exactly when it is before the cut-off rounded up to a whole millisecond |
| BackendAgreement.BadgerWants | internal/stats/badger_storage.go:127-189 | With ascending keys a read with any cut-off selects exactly the writes not before the cut-off rounded up to a millisecond, timestamps truncated |
| BackendAgreement.RoundUpIsNext | internal/stats/badger_storage.go:161-166 | Rounding up gives the first whole millisecond not before the cut-off |
| BackendAgreement.RoundingSeenIff | internal/stats/badger_storage.go:161-166 | The rounding of the cut-off changes the selection exactly when an entry lies between the two |
| BackendAgreement.AgreeIff | internal/stats/file_storage.go:133-136 | What Badger and the file storage cut from stretches of the same increasing writes is equal exactly when the limit cuts nothing off Badger's and the file storage has as much to return; a negative limit agrees only on nothing |
| BackendAgreement.AgreeOnSame | internal/stats/file_storage.go:133-136 | When both have the same entries to return they agree exactly when the limit is 0 or cuts nothing off |
| BackendAgreement.LimitOneDisagrees | internal/stats/file_storage.go:133-136 | Two writes a millisecond apart, of which a limit of 1 gives the second from a file and the first from Badger |
| BackendAgreement.ReadBoth | internal/stats/storage.go:9-18 | After the same operations, for any number of writes, limit and cut-off, as long as milliseconds and their printed forms ascend: what each returns, and exactly when that is the same; a leading undecodable entry makes only Badger fail |
| ErrorWindow.WindowMeetsDefinition | internal/stats/collector.go:134-156 | The window function is exactly the longest suffix that fits both limits, or just the newest error when that alone is too long |
| ErrorWindow.SizeIsTotal | internal/stats/collector.go:142-146 | The size that is limited is the number of bytes of all kept errors together |
| ErrorWindow.EvictionAdvancesWindow | internal/stats/collector.go:138-155 | Dropping by count, then by bytes, and appending turns the window of a history into the window of the history with the new error |
| ErrorWindow.DropUntilIsLongest | internal/stats/collector.go:147-151 | The byte eviction stops at the longest suffix that leaves enough room |
| CollectorModel.Collector.SetConfig | internal/stats/collector.go:79-101 | All counters and both windows restart; the sample limit is ten per line, at most 10000 |
| CollectorModel.Collector.RecordPublish | internal/stats/collector.go:103-107 | The event is counted, modulo 2^64, and nothing else changes |
| CollectorModel.Collector.RecordConsume | internal/stats/collector.go:116-120 | The event is counted, modulo 2^64, and nothing else changes |
| CollectorModel.Collector.RecordPublishError | internal/stats/collector.go:109-114 | Panics exactly when no line may be kept; otherwise counts the error and the kept errors stay the window of all since the last snapshot |
| CollectorModel.Collector.RecordConsumeError | internal/stats/collector.go:122-128 | The same for consume errors |
| CollectorModel.Collector.RecordError | internal/stats/collector.go:130-132 | The same without a counter; all three panic exactly when no specification has been set or its max_lines is not positive |
| CollectorModel.Collector.PushError | internal/stats/collector.go:134-156 | The eviction loop terminates and leaves the evicted window with the new error appended |
| CollectorModel.Collector.RecordLatency | internal/stats/collector.go:158-168 | The kept latencies stay the last samples up to the limit since the last snapshot |
| CollectorModel.Collector.CalculateLatencyStats | internal/stats/collector.go:214-240 | Sorting in place and summing with 64-bit wrap-around gives the summary of the samples in the order they came |
| CollectorModel.Collector.SummarizeSorted | internal/stats/collector.go:217-239 | On sorted samples the figures are first, last, truncated mean of the wrapped sum, and the 99% position, which the index clamp never changes |
| CollectorModel.Collector.CollectStats | internal/stats/collector.go:170-212 | The counters, pending messages, latency figures and errors of the snapshot describe everything recorded since the last one, and both windows are emptied; it is handed to the storage exactly if there is one and a specification with a hash |
| CollectorModel.Collector.WriteFailure | internal/stats/collector.go:281-298 | A failure goes to the storage as a snapshot of this moment with its one error and no counts, exactly if there is a storage and a specification with a hash, and into no window or counter |
| CollectorModel.AfterCollect | internal/stats/collector.go:170-212 | Taking a snapshot keeps the fields equal to what the event log makes them, and the snapshot is faithful |
| CollectorTheorems.ErrorsAreConserved | internal/stats/collector.go:134-212 | Over any run between two SetConfig calls each recorded error is, in order, evicted before one snapshot, reported by it, evicted since, or still kept |
| CollectorTheorems.LatenciesAreConserved | internal/stats/collector.go:158-212 | Likewise each recorded latency is evicted before one snapshot, among the samples its figures summarize, evicted since, or still kept |
| CollectorTheorems.Conserved | internal/stats/collector.go:134-212 | The same for anything recorded of which a snapshot takes and drops a suffix |
| CollectorTheorems.SnapshotReportsNewest | internal/stats/collector.go:170-212 | A snapshot's errors are an unbroken suffix of those recorded since the one before, with the newest, within the limits unless a single one exceeds them |
| CollectorTheorems.CountersNeverDrop | internal/stats/collector.go:103-128 | Short of 2^64 events each of the four counters of a later snapshot exceeds that of an earlier one by exactly the events of its sort in between |
| CollectorTheorems.SnapshotPending | internal/stats/collector.go:170-212 | Short of 2^63 events a snapshot's pending messages are those published less those consumed |
| CollectorTheorems.SnapshotLatencies | internal/stats/collector.go:158-212 | A snapshot's count is that of the bounded window, and its figures are ordered and, but for the mean, actual samples |
| LatencySummary.SummaryOfPermutation | internal/stats/collector.go:214-240 | The figures do not depend on the order of the samples |
| LatencySummary.MeanBetweenExtremes | internal/stats/collector.go:217-239 | Min <= mean <= max and min <= P99 <= max, for negative latencies under truncating division too, unless the sum has wrapped |
| LatencySummary.MeanIsTruncated | internal/stats/collector.go:219-225 | Unless the sum wraps, the mean is the sum divided by the count with the fraction cut off, toward zero |
| LatencySummary.WindowCannotOverflow | internal/stats/collector.go:219-224 | The sum of a full window of latencies up to (2^63-1)/10000 in size does not wrap |
| LatencySummary.P99Covers | internal/stats/collector.go:227-231 | Strictly more than 99% of the samples are at most P99 and at most 99% are below it |
| LatencySummary.P99IndexInRange | internal/stats/collector.go:227-230 | The P99 index, 99% of the number of samples rounded down, is always inside the samples, so the clamp after it is unreachable |
| LatencySummary.P99IndexInFloat64 | internal/stats/collector.go:227-230 | For up to 10000 samples, rounding the product with the float64 nearest to 0.99 gives that index |
| Float64.RoundedIsMonotone | internal/config/config.go:473-491 | Conversion and product in float64 keep order |
| Float64.IntegersAreRepresented | internal/config/config.go:473-491 | Integers of up to 53 binary digits convert exactly |
| Float64.RelativeError | internal/config/config.go:473-491 | From 1/256 on, rounding changes a number by at most a 2^53rd part |
| Float64.TiesToEven | internal/config/config.go:473-491 | Half-way between two integers the even one is taken |
| Float64.CarryIsKept | internal/config/config.go:473-491 | What rounds up to an integer below 2^53 still does, to the next one, after more than 1 has been added |
| Float64.FactorRaises | internal/config/config.go:473-491 | The rounded product of a float64 number with a float64 factor above 1 is larger |
| Float64.FactorLowers | internal/config/config.go:473-491 | ... and with one below 1 smaller, for numbers from 1 on |
| Scaling.GrowthWhileFits | internal/config/config.go:473-491 | As long as no product overflows, in a run of in-place multiplications by a float64 m >= 1 a field that float64 represents never shrinks, is constant for m = 1, and for m > 1 lies after k of them between l^k*v - (l^k-1)/(l-1) and h^k*v, where l and h are m less and plus a 2^53rd part of it: the rounding of each product |
| Scaling.RunWhileFits | internal/config/config.go:473-491 | As long as no product overflows, the values in place are the iterated products, each rounded to float64 and truncated |
| Scaling.StaysPositiveIffSettles | internal/config/config.go:473-491 | A positive field of any integer type stays positive in every run of repetitions exactly when the first one leaves a positive number that fits and that the second leaves as it is: one that still shrinks goes on to zero, one that still grows goes on until it overflows |
| Scaling.SettlesIffUnchanged | internal/config/config.go:473-491 | For a number that float64 represents, as all of 32 bits, that is exactly when the first repetition leaves it as it is |
| Scaling.UnchangedIff | internal/config/config.go:473-491 | A multiplier leaves a number v that float64 represents as it is exactly when it is at least 1 and the rounded product is below v + 1 |
| Scaling.StepRises | internal/config/config.go:473-491 | A multiplier that raises one number raises every larger one |
| Scaling.FiveGrows | internal/config/config.go:473-491 | 5 times the float64 1.2 is less than 6, and stored as 6 |
| LoadTestSpecs.ValidatePolicy | internal/config/config.go:417-471 | A disabled policy passes unchanged; an enabled one is refused exactly for a negative ramp-up multiplier; every other multiplier is kept if positive and 1 otherwise, so validating again changes nothing |
| LoadTestSpecs.LoadTestSpec.ApplyMultipliers | internal/config/config.go:473-491 | Every stream and every number is converted to float64, multiplied in place by its own multiplier, rounded and truncated, field by field, as long as the product fits the field's type; names and subjects stay |
| LoadTestSpecs.LoadTestSpec.Repeat | internal/loadtest/manager.go:178-210 | k multiplications of the one specification in place are a run of it, take exactly the iterated values as long as those fit, and keep it valid if it is settled |
| LoadTestSpecs.RunIsExact | internal/config/config.go:473-491 | As long as nothing overflows, every specification of a run is the first one with each field multiplied, rounded and truncated that often |
| LoadTestSpecs.NumbersIterate | internal/config/config.go:480-491 | Every one of the nine numbers is multiplied by its own multiplier and no other |
| LoadTestSpecs.StreamIterates | internal/config/config.go:474-478 | So are a stream's three, and its name and subjects stay |
| LoadTestSpecs.GrowthKeepsValid | internal/config/config.go:473-491 | As long as nothing overflows, multipliers of at least 1 keep a validated specification valid, and let no validated field shrink that float64 represents; ramp-up only stays non-negative |
| LoadTestSpecs.StaysValidIffSettled | internal/config/config.go:417-491 | A valid specification stays valid in every run of repetitions exactly when it settles with the first: the second changes no validated field and does not raise the ramp-up, and all of them fit |
| LoadTestSpecs.OmittedMultipliers | internal/config/config.go:417-471 | A policy without any multipliers, once its defaults are set, drops the ramp-up and keeps every other number exactly if float64 represents it |
| Naming.NormalizedPlaceholders | internal/config/config.go:315-317 | After validation no "{}" is left, and there is a "%d" exactly when the subject had either |
| Naming.NormalizedFirst | internal/config/config.go:315-317 | The first "{}" becomes "%d", the text before it stays, and it goes on behind it |
| Naming.NormalizedIsIdempotent | internal/config/config.go:315-317 | Validating again changes no subject |
| Naming.NormalizeSubjects | internal/config/config.go:315-317 | The loop normalizes every subject in place |
| Naming.PrintedOnce | internal/config/config.go:548-558 | Formatting prints the stream index exactly once, inside text that does not depend on it |
| Naming.OnePlaceholder | internal/config/config.go:548-558 | Around a single placeholder that text is the rest of the subject, unchanged |
| Naming.SubjectOf | internal/config/config.go:548-558 | A subject without '%' is left alone; in one with a single placeholder exactly the index takes its place |
| Naming.SubjectOfTwo | internal/config/config.go:548-558 | A second placeholder is printed as Go's mark for a missing argument |
| Naming.EscapedPlaceholder | internal/config/config.go:548-558 | "%%d" counts as a placeholder but prints "%d", with the index behind the text in Go's mark for an extra argument |
| Naming.SubjectsTellStreamsApart | internal/config/config.go:542-566 | Two streams get different subjects exactly when the subject was written with a placeholder of either kind |
| Naming.GetFormattedStreamNames | internal/config/config.go:569-575 | The names are the prefix, "_" and the index, for the indices from 1 to Count, in order; panics exactly for a negative Count |
| Naming.GetFormattedSubjects | internal/config/config.go:560-566 | One formatted subject for every template, in order |
| Naming.StreamNamesCollide | internal/config/config.go:569-575 | Stream names are equal exactly for the same prefix and index, whatever the prefixes look like |
| FanOut.InPlaces | internal/engine/publisher.go:200-248 | There is a member for every stream from 1 to the count of an entry with exactly this prefix, each of its subjects and each copy, and no other |
| FanOut.PlacesAscend | internal/engine/publisher.go:200-248 | Members are created by entry, then stream, then subject, then copy, in ascending order |
| FanOut.PlacesOnce | internal/engine/publisher.go:200-248 | No member is created twice |
| FanOut.CreatePublishers | internal/engine/publisher.go:200-248 | The loops create exactly the publishers of those places, in order: each has the stream name of prefix and number, the subject of its place formatted for its stream, the message size, and the ID printed from client, stream, subject and copy; they panic exactly on a matching entry with a negative count, or when there is a publisher to create and its message size is negative |
| FanOut.CreateConsumers | internal/engine/consumer.go:227-301 | The same for consumers, with durable names printed from stream, subject and copy; they panic exactly on a matching entry with a negative count |
| FanOut.NumberedCollide | internal/engine/publisher.go:216 | Names are equal exactly for the same stream, subject and copy number |
| FanOut.NamesDifferIff | internal/config/config.go:506-540 | For validated streams all names differ exactly when at most one entry has the prefix |
| FanOut.PublishersDiffer | internal/engine/publisher.go:200-248 | The created publishers number the sum over matching entries, and their IDs are pairwise distinct exactly when at most one entry matches |
| FanOut.ConsumersDiffer | internal/engine/consumer.go:227-301 | The same for consumers' IDs and durable names |
| FanOut.MembersOfOne | internal/engine/publisher.go:200-248 | With one matching entry there are Count * Subjects * CountPerStream members |
| RampUp.CalculatePublishInterval | internal/engine/publisher.go:127-141 | An error exactly for a rate that is not positive or an unknown pattern; otherwise interval * rate <= period < (interval + 1) * rate, the period being a second, or with the random pattern the drawn number of milliseconds plus 500 |
| RampUp.ArmedIff | internal/engine/publisher.go:127-141 | Every interval is positive exactly up to a rate of 10^9, or half that with the random pattern |
| RampUp.FasterIsShorter | internal/engine/publisher.go:127-141 | A higher rate has no longer interval |
| RampUp.Publisher.SetRate | internal/engine/publisher.go:168-172 | The rate is brought into the range from 1 to the target, and kept if it is there |
| RampUp.RunAlong | internal/engine/publisher.go:70-116 | For every pattern, running the publisher's steps and the manager's updates in any order leaves its rate, ticker and noted rate exactly as the trace says, on which the theorems below rest |
| RampUp.Publisher.NewTicker | internal/engine/publisher.go:79-85 | The ticker gets the interval of the rate read at that moment; refused exactly for a rate that is not positive or an unknown pattern |
| RampUp.RampUpIsOrderly | internal/engine/rampup.go:50-87 | Whatever publishers do in between, what a run of the ramp-up by a monotone clock does is orderly: ticks only with a ramp-up, in time order, and nothing after completion |
| RampUp.Publisher.FollowRate | internal/engine/publisher.go:105-112 | After every wake-up the loop has noted the rate, and its ticker is set again exactly if the rate had changed |
| RampUp.UpdatePublisherRates | internal/engine/rampup.go:99-111 | Every publisher gets the rate of the progress made, its share of the target rounded to float64 and truncated, brought into its range |
| RampUp.StartRampUp | internal/engine/rampup.go:27-88 | The rates are those of the latest tick; completion by the timer or a zero duration sets every target; cancellation leaves them |
| RampUpShare.TickRateIsShare | internal/engine/rampup.go:42-103 | At a tick the rate is the share of the target that has passed, from one hundredth of it up to all of it, rounded down, within a 2^50th part of it, and at least 1 |
| RampUpShare.HalfTheTarget | internal/engine/rampup.go:42-103 | While no more than half of the time has passed, the rate is at most half of the target, whatever the roundings |
| RampUpShare.FullAtTheEnd | internal/engine/rampup.go:42-103 | A tick once the time is over sets exactly the target |
| RampUp.RateNeverDrops | internal/engine/rampup.go:27-111 | In every interleaving, once the publisher has stored its first rate, the rate stays between 1 and the target and never drops |
| RampUp.CompletionReachesTarget | internal/engine/publisher.go:76-77 | A completed ramp-up leaves a publisher at its target exactly when its first rate was stored before, or the target is 1 |
| RampUp.TickerFollowsRate | internal/engine/publisher.go:76-112 | For every pattern, the ticker ends up set for the final rate, with one of the intervals the pattern has for it, unless that rate was already there at the second of the two first reads; then it stays set for that of the first |
| RampUp.FullRateWithoutRampUp | internal/engine/rampup.go:29-36 | Without a ramp-up, the rate ends at a target above 1 and the ticker set for it exactly when completion comes after the first store and not between the two reads |
| RampUp.SteadyInterval | internal/engine/publisher.go:127-141 | With the steady pattern there is one interval for each rate |
| RampUp.CompletedTooEarly | internal/engine/publisher.go:76-77 | A run in which completion comes first and the rate stays 1 |
| Backoff.ExponentialBackoff | internal/engine/utils.go:11-49 | Arguments are refused exactly if steps, duration or factor is not positive. For every outcome and cancellation trace: at most `steps` calls; success exactly when some attempt among them succeeds with none of it and the context done before, and then with the last call made; failure exactly after `steps` failures with the last error; one wait between calls, each at most the cap and, while products fit, as the recurrence in float64 says; the final return is unreachable |
| Backoff.DoneIsFatal | internal/engine/utils.go:23-30 | Under a done context nothing is called, and no retry succeeds |
| Backoff.WaitsAreBounded | internal/engine/utils.go:36-41 | Fewer than `steps` waits of at most the cap add up to at most (steps - 1) * cap |
| Backoff.CappedOnce | internal/engine/utils.go:36 | With a factor of at least 1 and a cap that float64 represents, capping at every step is rounding and truncating at every step and capping once |
| Backoff.CappedEachTime | internal/engine/utils.go:36 | With a factor below 1 it is not |
| Backoff.ExactClosedForm | internal/engine/utils.go:36 | Without truncation the k-th wait is min(duration * factor^k, cap) |
| Backoff.TruncatedWaits | internal/engine/utils.go:36 | For a duration and a cap that float64 represents, the waits lie between that for the factor raised by a 2^53rd part of it, and the same for the factor lowered by it with one lost at every step |
| Backoff.CreationHardlyWaits | internal/engine/stream.go:67 | Every wait between attempts to create a stream is 5 nanoseconds |

## Left out

- NATS connections, streams, subscriptions, fetching and acknowledging: the library's answers are parameters of the engine.
- HTTP server, routing, command line, signals and logging: only the bounded send of a configuration is kept. A send that times out changes nothing and is no action.
- Bytes of JSON and SHA-256: encoding is a round trip that fails exactly on entries with errors, and hashes are texts without a colon. A line is assumed to fit the scanner's buffer.
- Badger's own implementation, expiry and garbage collection: the database is an ordered map with atomic transactions, and a `DropAll` that fails drops nothing.
- The file system below single operations: rename is atomic, removing a temporary file succeeds, and a crash in the middle is not modelled. `Stdout` mode of the file storage is left out.
- Backing arrays of Go's slices: the collector's windows and the caches' entries are sequences, so sharing of memory between a snapshot and the collector is not captured.
- Interleavings inside a collector method: each is one atomic step, although `RecordLatency` and `RecordError` take other locks than `CollectStats`.
- CollectorModel.Collector.CollectStats: `PublishRate`, `ConsumeRate`, the ramp-up status and uptime of a snapshot are not modelled; the rates divide a counter since the start by the last interval. History queries only read the storage.
- CollectorModel.Collector.RecordError: what a panic leaves behind is not modelled, because it ends the process.
- LoadTestSpecs.LoadTestSpec.ApplyMultipliers: a product outside its integer type becomes any value of the type, as Go leaves it open.
- LoadTestSpecs.StaysValidIffSettled: of validation only the numbers and names that repetition touches or keeps, not the optional stream settings.
- Float64.Positive: numbers below 1/256 are rounded more coarsely than float64 does, and exponents are not bounded. Truncated, they are 0 either way, and progress has a floor of 1/100.
- EngineLifecycle.Engine.Start: the goroutines of an errgroup count only by having been started and by whether one of them failed; what the collector's `SetConfig` and `WriteFailure` do is in the collector's model. A negative count of streams, which panics, counts as none here; the panics are in `Setup.SetupStreams` and `FanOut`.
- ProcessConfig.Run: what the repetitions make of a specification is a function of their number, for which `LoadTestSpecs.LoadTestSpec.Repeat` shows what it can be. A run that does not return is described by its finite prefixes.
- ProcessConfig.CancelledReturnsIff: when the timer of an execution and the Done arm are both ready, which of them is taken is left to the trace.
- ManagerTheorems.TurnedAwayIff: what a configuration hashes to is a function of the moment; a repetition scales the published configuration in place and so changes its hash.
- Naming.SubjectsTellStreamsApart: subjects with other verbs than `%d` and `%%` are formatted by a function about which nothing is assumed.
- RampUp.TickerFollowsRate: whether a publisher's own loop is scheduled at all is up to the trace.
- RampUp.StartRampUp: durations are nanoseconds without overflow.
- Backoff.ExponentialBackoff: a product that does not fit 64 bits becomes any value, and then only the cap is known of the waits.
