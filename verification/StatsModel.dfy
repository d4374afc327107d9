// Snapshots of the collector and the entries both storages keep of them.
module StatsModel {
  import opened Sequences

  newtype byte = x: int | 0 <= x < 256

  // The text of an error; its length is what Go's len counts.
  type ErrorText = seq<byte>

  datatype LatencyStats = LatencyStats(min: int, max: int, mean: int, p99: int, count: nat)

  const NO_LATENCY := LatencyStats(0, 0, 0, 0, 0)

  datatype Stats = Stats(
    timestamp: int,            // nanoseconds
    published: nat,
    consumed: nat,
    publishErrors: nat,
    consumeErrors: nat,
    pendingMessages: int,
    latency: LatencyStats,
    errors: seq<ErrorText>
  )

  datatype StatsEntry = StatsEntry(configHash: string, timestamp: int, stats: Stats)

  datatype Kind = StatsKind | FailureKind

  // encoding/json writes an error value as an object, which it cannot read back
  // into the interface type error: snapshots carrying errors do not decode.
  predicate Decodable(s: Stats) {
    s.errors == []
  }

  function Decodables(entries: seq<StatsEntry>): (r: seq<StatsEntry>)
    ensures |r| <= |entries|
  {
    if entries == [] then [] else
    var before := Decodables(entries[..|entries| - 1]);
    if Decodable(Last(entries).stats) then before + [Last(entries)] else before
  }

  // --- What a storage has been asked to keep ---

  datatype Op = Write(kind: Kind, entry: StatsEntry) | Clear

  function WriteOf(kind: Kind, hash: string, stats: Stats): Op {
    Write(kind, StatsEntry(hash, stats.timestamp, stats))
  }

  predicate Concerns(op: Op, kind: Kind, hash: string) {
    op.Write? && op.kind == kind && op.entry.configHash == hash
  }

  // The entries of one kind and hash written since the last Clear, in order.
  function View(ops: seq<Op>, kind: Kind, hash: string): seq<StatsEntry> {
    if ops == [] then [] else
    var before := View(ops[..|ops| - 1], kind, hash);
    if Last(ops).Clear? then []
    else if Concerns(Last(ops), kind, hash) then before + [Last(ops).entry]
    else before
  }

  lemma ViewSnoc(ops: seq<Op>, op: Op, kind: Kind, hash: string)
    ensures View(ops + [op], kind, hash) ==
            if op.Clear? then []
            else if Concerns(op, kind, hash) then View(ops, kind, hash) + [op.entry]
            else View(ops, kind, hash)
  {
    assert (ops + [op])[..|ops|] == ops;
  }

  lemma ViewAppendSnoc(a: seq<Op>, b: seq<Op>, op: Op, kind: Kind, hash: string)
    requires View(a + b, kind, hash) == View(a, kind, hash) + View(b, kind, hash) && !op.Clear?
    ensures View(a + (b + [op]), kind, hash) == View(a, kind, hash) + View(b + [op], kind, hash)
  {
    ViewSnoc(b, op, kind, hash);
    ViewSnoc(a + b, op, kind, hash);
    assert a + (b + [op]) == (a + b) + [op];
  }

  lemma {:induction false} ViewAppend(a: seq<Op>, b: seq<Op>, kind: Kind, hash: string)
    requires Clear !in b
    ensures View(a + b, kind, hash) == View(a, kind, hash) + View(b, kind, hash)
  {
    if b == [] {
      assert a + b == a;
    } else {
      var init, op := b[..|b| - 1], Last(b);
      ViewAppend(a, init, kind, hash);
      ViewAppendSnoc(a, init, op, kind, hash);
      assert b == init + [op];
    }
  }

  // Entries not before since, in order.
  function NotBefore(entries: seq<StatsEntry>, since: Option<int>): (r: seq<StatsEntry>)
    ensures |r| <= |entries|
    ensures since.None? ==> r == entries
  {
    if entries == [] then [] else
    var before := NotBefore(entries[..|entries| - 1], since);
    if since.Some? && Last(entries).timestamp < since.value then before else before + [Last(entries)]
  }

  lemma NotBeforeSnoc(entries: seq<StatsEntry>, e: StatsEntry, since: Option<int>)
    ensures NotBefore(entries + [e], since) ==
            if since.Some? && e.timestamp < since.value then NotBefore(entries, since)
            else NotBefore(entries, since) + [e]
  {
    assert (entries + [e])[..|entries|] == entries;
  }

  // Those and no others are at these positions.
  ghost predicate Sifts(at: seq<nat>, entries: seq<StatsEntry>, since: Option<int>, kept: seq<StatsEntry>) {
    && |at| == |kept|
    && (forall i, j :: 0 <= i < j < |at| ==> at[i] < at[j])
    && (forall i :: 0 <= i < |at| ==> at[i] < |entries| && kept[i] == entries[at[i]])
    && (forall j: nat :: j < |entries| ==> (j in at <==> since.None? || entries[j].timestamp >= since.value))
  }

  // What is not before the cut-off is kept, in order, and nothing else.
  lemma {:induction false} NotBeforeSifts(entries: seq<StatsEntry>, since: Option<int>) returns (at: seq<nat>)
    ensures Sifts(at, entries, since, NotBefore(entries, since))
  {
    at := [];
    if entries != [] {
      var init, e := entries[..|entries| - 1], Last(entries);
      assert entries == init + [e];
      at := NotBeforeSifts(init, since);
      at := SiftsNext(at, init, since, e);
    }
  }

  lemma SiftsNext(at: seq<nat>, entries: seq<StatsEntry>, since: Option<int>, e: StatsEntry) returns (at': seq<nat>)
    requires Sifts(at, entries, since, NotBefore(entries, since))
    ensures Sifts(at', entries + [e], since, NotBefore(entries + [e], since))
  {
    NotBeforeSnoc(entries, e, since);
    at' := at;
    if since.Some? && e.timestamp < since.value {
      SiftsWithout(at, entries, since, NotBefore(entries, since), e);
    } else {
      SiftsWith(at, entries, since, NotBefore(entries, since), e);
      at' := at + [|entries|];
    }
  }

  lemma SiftsWithout(at: seq<nat>, entries: seq<StatsEntry>, since: Option<int>, kept: seq<StatsEntry>, e: StatsEntry)
    requires Sifts(at, entries, since, kept) && since.Some? && e.timestamp < since.value
    ensures Sifts(at, entries + [e], since, kept)
  {
  }

  lemma SiftsWith(at: seq<nat>, entries: seq<StatsEntry>, since: Option<int>, kept: seq<StatsEntry>, e: StatsEntry)
    requires Sifts(at, entries, since, kept) && (since.None? || e.timestamp >= since.value)
    ensures Sifts(at + [|entries|], entries + [e], since, kept + [e])
  {
    var at', n := at + [|entries|], |entries|;
    forall j: nat | j <= n ensures j in at' <==> since.None? || (entries + [e])[j].timestamp >= since.value {
      assert j in at' <==> j in at || j == n;
    }
  }

  // What a collector asks for: every entry carries the time of its snapshot, and a
  // failure carries an error. Clearing is the storage's user's doing.
  predicate FromCollector(ops: seq<Op>) {
    forall op :: op in ops && op.Write? ==>
      && op.entry.timestamp == op.entry.stats.timestamp
      && (op.kind.FailureKind? ==> op.entry.stats.errors != [])
  }
}
