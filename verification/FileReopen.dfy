// Closing the file storage and opening it again, and what a reader gets.
module FileReopen {
  import opened Sequences
  import opened StatsModel
  import opened FileStore

  // Writing an entry as a line and loading it gives it back, if it decodes.
  lemma LineRoundTrip(kind: Kind, e: StatsEntry)
    ensures OpOf(LineOf(kind, e.configHash, e)) == if Decodable(e.stats) then Some(Write(kind, e)) else None
  {
    assert |"stats"| != |"failure"|;
  }

  lemma OpsOfSnoc(lines: seq<Line>, line: Line)
    ensures OpsOf(lines + [line]) == if OpOf(line).Some? then OpsOf(lines) + [OpOf(line).value] else OpsOf(lines)
  {
    SelectedSnoc(lines, line, LineOp());
  }

  lemma OpsOfAppend(a: seq<Line>, b: seq<Line>)
    ensures OpsOf(a + b) == OpsOf(a) + OpsOf(b)
  {
    SelectedAppend(a, b, LineOp());
  }

  lemma {:induction false} OpsHaveNoClear(lines: seq<Line>)
    ensures Clear !in OpsOf(lines)
  {
    if lines == [] {
    } else {
      OpsHaveNoClear(lines[..|lines| - 1]);
    }
  }

  lemma ViewOfLines(a: seq<Line>, b: seq<Line>, k: Kind, h: string)
    ensures View(OpsOf(a + b), k, h) == View(OpsOf(a), k, h) + View(OpsOf(b), k, h)
  {
    OpsOfAppend(a, b);
    OpsHaveNoClear(b);
    ViewAppend(OpsOf(a), OpsOf(b), k, h);
  }

  // Every entry was written under its own hash.
  predicate Filed(entries: seq<StatsEntry>, hash: string) {
    forall i :: 0 <= i < |entries| ==> entries[i].configHash == hash
  }

  lemma {:induction false} ViewFiled(ops: seq<Op>, kind: Kind, hash: string)
    ensures Filed(View(ops, kind, hash), hash)
  {
    if ops == [] {
    } else {
      ViewFiled(ops[..|ops| - 1], kind, hash);
    }
  }

  lemma {:induction false} ViewOfBlock(kind: Kind, hash: string, entries: seq<StatsEntry>, k: Kind, h: string)
    requires Filed(entries, hash)
    ensures View(OpsOf(Block(kind, hash, entries)), k, h) == if k == kind && h == hash then Decodables(entries) else []
  {
    if entries == [] {
    } else {
      var init := entries[..|entries| - 1];
      ViewOfBlock(kind, hash, init, k, h);
      var line := LineOf(kind, hash, Last(entries));
      LineRoundTrip(kind, Last(entries));
      OpsOfSnoc(Block(kind, hash, init), line);
      if OpOf(line).Some? {
        ViewSnoc(OpsOf(Block(kind, hash, init)), OpOf(line).value, k, h);
      }
    }
  }

  // One more block, under a hash that has none yet.
  lemma ViewOfNextBlock(lines: seq<Line>, kind: Kind, g: string, entries: seq<StatsEntry>, k: Kind, h: string,
                        shown: seq<StatsEntry>)
    requires View(OpsOf(lines), k, h) == shown && Filed(entries, g)
    requires k == kind && h == g ==> shown == []
    ensures View(OpsOf(lines + Block(kind, g, entries)), k, h) ==
            if k == kind && h == g then Decodables(entries) else shown
  {
    ViewOfBlock(kind, g, entries, k, h);
    ViewOfLines(lines, Block(kind, g, entries), k, h);
  }

  lemma {:induction false} ViewOfImage(kind: Kind, cache: Cache, order: seq<string>, k: Kind, h: string)
    requires forall g :: g in order ==> g in cache && Filed(cache[g], g)
    requires forall i, j :: 0 <= i < j < |order| ==> order[i] != order[j]
    ensures View(OpsOf(Image(kind, cache, order)), k, h) == if k == kind && h in order then Decodables(cache[h]) else []
  {
    if order == [] {
    } else {
      var init, g := order[..|order| - 1], Last(order);
      ViewOfImage(kind, cache, init, k, h);
      ViewOfNextBlock(Image(kind, cache, init), kind, g, cache[g], k, h,
                      if k == kind && h in init then Decodables(cache[h]) else []);
      assert h in order <==> h in init || h == g;
    }
  }

  lemma ViewOfImages(stats: Cache, so: seq<string>, failures: Cache, fo: seq<string>, k: Kind, h: string)
    requires Orders(so, stats) && Orders(fo, failures)
    requires (forall g :: g in stats ==> Filed(stats[g], g)) && forall g :: g in failures ==> Filed(failures[g], g)
    ensures View(OpsOf(Image(StatsKind, stats, so) + Image(FailureKind, failures, fo)), k, h) ==
            Decodables(Cached(if k.StatsKind? then stats else failures, h))
  {
    var a, b := Image(StatsKind, stats, so), Image(FailureKind, failures, fo);
    ViewOfImage(StatsKind, stats, so, k, h);
    ViewOfImage(FailureKind, failures, fo, k, h);
    ViewOfLines(a, b, k, h);
    assert Decodables([]) == [];
  }

  // Loading a complete image, in whatever order its maps were written, sees for
  // every hash and kind exactly the decodable entries that were cached, in order.
  // The caches are bounded, so loading evicts nothing.
  lemma ReopenRebuilds(history: seq<Op>, stats: Cache, failures: Cache, lines: seq<Line>, k: Kind, h: string)
    requires Represents(stats, history, StatsKind) && Represents(failures, history, FailureKind)
    requires IsImage(lines, stats, failures)
    ensures View(OpsOf(lines), k, h) == Decodables(LastN(View(history, k, h), MAX_ENTRIES))
    ensures LastN(View(OpsOf(lines), k, h), MAX_ENTRIES) == View(OpsOf(lines), k, h)
  {
    var so, fo :| Orders(so, stats) && Orders(fo, failures)
      && lines == Image(StatsKind, stats, so) + Image(FailureKind, failures, fo);
    CachedAreFiled(stats, history, StatsKind);
    CachedAreFiled(failures, history, FailureKind);
    ViewOfImages(stats, so, failures, fo, k, h);
    CachedIsView(stats, history, StatsKind, h);
    CachedIsView(failures, history, FailureKind, h);
  }

  lemma CachedIsView(cache: Cache, history: seq<Op>, kind: Kind, h: string)
    requires Represents(cache, history, kind)
    ensures Cached(cache, h) == LastN(View(history, kind, h), MAX_ENTRIES)
  {
  }

  lemma CachedAreFiled(cache: Cache, ops: seq<Op>, kind: Kind)
    requires Represents(cache, ops, kind)
    ensures forall h :: h in cache ==> Filed(cache[h], h)
  {
    forall h | h in cache ensures Filed(cache[h], h) {
      ViewFiled(ops, kind, h);
      assert Cached(cache, h) == LastN(View(ops, kind, h), MAX_ENTRIES);
    }
  }

  // Entries are written at the time of their snapshots.
  predicate StampedOp(op: Op) {
    op.Write? ==> op.entry.timestamp == op.entry.stats.timestamp
  }

  predicate Stamped(ops: seq<Op>) {
    forall i :: 0 <= i < |ops| ==> StampedOp(ops[i])
  }

  method PerformFaultless(fs: FileStorage, op: Op)
    requires fs.Valid() && fs.file == OpenFile && StampedOp(op)
    modifies fs, fs.disk
    ensures fs.Valid() && fs.Synced() && fs.file == OpenFile && fs.history == old(fs.history) + [op]
  {
    match op {
      case Clear =>
        var _ := fs.Clear(false);
      case Write(kind, e) =>
        if kind.StatsKind? {
          var _ := fs.WriteStats(e.configHash, e.stats, NO_FAULTS);
        } else {
          var _ := fs.WriteFailure(e.configHash, e.stats, NO_FAULTS);
        }
    }
  }

  // From any state, the first operation brings the file into line with the caches.
  method RunFaultless(fs: FileStorage, ops: seq<Op>)
    requires fs.Valid() && fs.file == OpenFile && Stamped(ops)
    modifies fs, fs.disk
    ensures fs.Valid() && fs.file == OpenFile && fs.history == old(fs.history) + ops
    ensures if ops == [] then fs.disk.content == old(fs.disk.content) else fs.Synced()
  {
    if ops == [] {
      return;
    }
    ghost var before := fs.history;
    PerformFaultless(fs, ops[0]);
    for i := 1 to |ops|
      invariant fs.Valid() && fs.Synced() && fs.file == OpenFile && fs.history == before + ops[..i]
    {
      AppendNext(before, ops, i);
      PerformFaultless(fs, ops[i]);
    }
    assert ops[..|ops|] == ops;
  }

  // What a reader of one kind and hash finds after a reopening.
  function Surviving(history: seq<Op>, k: Kind, h: string): seq<StatsEntry> {
    Decodables(LastN(View(history, k, h), MAX_ENTRIES))
  }

  // A storage is opened on any file, performs any operations without a fault, and
  // is closed; then the file is opened again. Both caches come back, what the file
  // held at first included, less what does not decode.
  method RunAndReopen(disk: Disk, ops: seq<Op>) returns (reopened: FileStorage)
    requires Stamped(ops)
    modifies disk
    ensures reopened.Valid() && reopened.disk == disk && reopened.file == OpenFile
    ensures forall k, h :: Cached(reopened.CacheOf(k), h) == Surviving(OpsOf(old(disk.content)) + ops, k, h)
    ensures ops != [] ==>
      forall k, h :: View(reopened.history, k, h) == Surviving(OpsOf(old(disk.content)) + ops, k, h)
  {
    var fs := NewFileStorage(disk, false, None);
    RunFaultless(fs, ops);
    ghost var history, stats, failures := fs.history, fs.statsCache, fs.failuresCache;
    var _ := fs.Close(false);
    reopened := NewFileStorage(disk, false, None);
    forall k, h
      ensures Cached(reopened.CacheOf(k), h) == Surviving(history, k, h)
      ensures ops != [] ==> View(reopened.history, k, h) == Surviving(history, k, h)
    {
      assert Cached(reopened.CacheOf(k), h) == LastN(View(reopened.history, k, h), MAX_ENTRIES);
      if ops == [] {
        assert history == OpsOf(disk.content);
        LoadedSurvive(disk.content, k, h);
      } else {
        ReopenRebuilds(history, stats, failures, disk.content, k, h);
      }
    }
  }

  // --- What has been loaded decodes ---

  lemma {:induction false} LoadedDecode(lines: seq<Line>, k: Kind, h: string)
    ensures forall e :: e in View(OpsOf(lines), k, h) ==> Decodable(e.stats)
  {
    if lines == [] {
    } else {
      var init, line := lines[..|lines| - 1], Last(lines);
      LoadedDecode(init, k, h);
      OpsOfSnoc(init, line);
      assert lines == init + [line];
      if OpOf(line).Some? {
        ViewSnoc(OpsOf(init), OpOf(line).value, k, h);
      }
    }
  }

  lemma {:induction false} NoneIsDropped(entries: seq<StatsEntry>)
    requires forall e :: e in entries ==> Decodable(e.stats)
    ensures Decodables(entries) == entries
  {
    if entries == [] {
    } else {
      NoneIsDropped(entries[..|entries| - 1]);
      assert entries == entries[..|entries| - 1] + [Last(entries)];
    }
  }

  lemma LoadedSurvive(lines: seq<Line>, k: Kind, h: string)
    ensures Surviving(OpsOf(lines), k, h) == LastN(View(OpsOf(lines), k, h), MAX_ENTRIES)
  {
    LoadedDecode(lines, k, h);
    NoneIsDropped(LastN(View(OpsOf(lines), k, h), MAX_ENTRIES));
  }

  predicate Chronological(entries: seq<StatsEntry>) {
    forall i, j :: 0 <= i < j < |entries| ==> entries[i].timestamp <= entries[j].timestamp
  }

  lemma {:induction false} NotBeforeIsSuffix(entries: seq<StatsEntry>, since: Option<int>)
    requires Chronological(entries)
    ensures IsSuffix(NotBefore(entries, since), entries)
  {
    if entries == [] {
    } else {
      var init, e := entries[..|entries| - 1], Last(entries);
      assert entries == init + [e];
      ChronologicalInit(init, e);
      NotBeforeIsSuffix(init, since);
      OneMoreNotBefore(init, e, since);
    }
  }

  lemma ChronologicalInit(init: seq<StatsEntry>, e: StatsEntry)
    requires Chronological(init + [e])
    ensures Chronological(init) && forall i :: 0 <= i < |init| ==> init[i].timestamp <= e.timestamp
  {
    var all := init + [e];
    forall i, j | 0 <= i < j < |init| ensures init[i].timestamp <= init[j].timestamp {
      assert all[i] == init[i] && all[j] == init[j];
    }
    forall i | 0 <= i < |init| ensures init[i].timestamp <= e.timestamp {
      assert all[i] == init[i] && all[|init|] == e;
    }
  }

  lemma OneMoreNotBefore(init: seq<StatsEntry>, e: StatsEntry, since: Option<int>)
    requires IsSuffix(NotBefore(init, since), init)
    requires forall i :: 0 <= i < |init| ==> init[i].timestamp <= e.timestamp
    ensures IsSuffix(NotBefore(init + [e], since), init + [e])
  {
    NotBeforeSnoc(init, e, since);
    if since.Some? && e.timestamp < since.value {
      NoneLeft(init, since.value);
    } else {
      SuffixSnoc(NotBefore(init, since), init, e);
    }
  }

  lemma {:induction false} NoneLeft(entries: seq<StatsEntry>, since: int)
    requires forall i :: 0 <= i < |entries| ==> entries[i].timestamp < since
    ensures NotBefore(entries, Some(since)) == []
  {
    if entries == [] {
    } else {
      NoneLeft(entries[..|entries| - 1], since);
    }
  }

  // As long as the clock does not run backwards, whatever the limit and the
  // cut-off, a reader gets the most recent writes and misses none in between.
  lemma ReadsAreSuffixes(history: seq<Op>, kind: Kind, hash: string, limit: int, since: Option<int>)
    requires Chronological(View(history, kind, hash))
    ensures IsSuffix(Newest(NotBefore(LastN(View(history, kind, hash), MAX_ENTRIES), since), limit),
                     View(history, kind, hash))
  {
    var view := View(history, kind, hash);
    var held := LastN(view, MAX_ENTRIES);
    var kept := NotBefore(held, since);
    LastNIsSuffix(view, MAX_ENTRIES);
    ChronologicalSuffix(held, view);
    NotBeforeIsSuffix(held, since);
    NewestIsSuffix(kept, limit);
    SuffixOfSuffix(kept, held, view);
    SuffixOfSuffix(Newest(kept, limit), kept, view);
  }

  lemma ChronologicalSuffix(t: seq<StatsEntry>, s: seq<StatsEntry>)
    requires Chronological(s) && IsSuffix(t, s)
    ensures Chronological(t)
  {
    forall i, j | 0 <= i < j < |t| ensures t[i].timestamp <= t[j].timestamp {
      assert t[i] == s[|s| - |t| + i] && t[j] == s[|s| - |t| + j];
    }
  }

  lemma NewestIsSuffix(entries: seq<StatsEntry>, limit: int)
    ensures IsSuffix(Newest(entries, limit), entries)
  {
    if limit > 0 {
      LastNIsSuffix(entries, limit);
    }
  }

  // --- Failures ---

  ghost predicate NoFailures(history: seq<Op>) {
    forall h :: View(history, FailureKind, h) == []
  }

  lemma {:induction false} FailuresCarryErrors(before: seq<Op>, ops: seq<Op>, h: string)
    requires NoFailures(before) && FromCollector(ops)
    ensures forall e :: e in View(before + ops, FailureKind, h) ==> !Decodable(e.stats)
  {
    if ops == [] {
      assert before + ops == before;
    } else {
      var init, op := ops[..|ops| - 1], Last(ops);
      assert forall o :: o in init ==> o in ops;
      FailuresCarryErrors(before, init, h);
      ViewSnoc(before + init, op, FailureKind, h);
      assert before + ops == (before + init) + [op];
    }
  }

  lemma {:induction false} AllAreDropped(entries: seq<StatsEntry>)
    requires forall e :: e in entries ==> !Decodable(e.stats)
    ensures Decodables(entries) == []
  {
    if entries == [] {
    } else {
      AllAreDropped(entries[..|entries| - 1]);
      assert Last(entries) in entries;
    }
  }

  lemma FailuresAreForgotten(before: seq<Op>, ops: seq<Op>, h: string)
    requires NoFailures(before) && FromCollector(ops)
    ensures Surviving(before + ops, FailureKind, h) == []
  {
    FailuresCarryErrors(before, ops, h);
    AllAreDropped(LastN(View(before + ops, FailureKind, h), MAX_ENTRIES));
  }

  // From session to session, no failure a collector has written is ever read back.
  method SessionForgetsFailures(disk: Disk, ops: seq<Op>) returns (reopened: FileStorage)
    requires FromCollector(ops) && NoFailures(OpsOf(disk.content))
    modifies disk
    ensures reopened.Valid() && reopened.disk == disk && NoFailures(reopened.history)
    ensures forall h :: Cached(reopened.CacheOf(FailureKind), h) == []
  {
    reopened := RunAndReopen(disk, ops);
    forall h ensures Cached(reopened.CacheOf(FailureKind), h) == [] && View(reopened.history, FailureKind, h) == [] {
      FailuresAreForgotten(OpsOf(old(disk.content)), ops, h);
      assert Cached(reopened.CacheOf(FailureKind), h) == LastN(View(reopened.history, FailureKind, h), MAX_ENTRIES);
    }
  }
}
