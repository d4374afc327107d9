// The file storage: a bounded cache per configuration hash and kind, and a file
// that is replaced as a whole after every write. Each method is one critical
// section of the storage's mutex.
module FileStore {
  import opened Sequences
  import opened StatsModel

  const MAX_ENTRIES := 10

  type Cache = map<string, seq<StatsEntry>>

  // One line of the file; its JSON may carry any type string, or not parse.
  datatype Line = Encoded(kind: string, configHash: string, timestamp: int, stats: Stats) | Malformed

  function TypeName(kind: Kind): string {
    if kind.StatsKind? then "stats" else "failure"
  }

  function LineOf(kind: Kind, hash: string, e: StatsEntry): Line {
    Encoded(TypeName(kind), hash, e.timestamp, e.stats)
  }

  // What loading makes of a line.
  function OpOf(line: Line): Option<Op> {
    if line.Malformed? || !Decodable(line.stats) then None
    else if line.kind == "stats" then Some(Write(StatsKind, StatsEntry(line.configHash, line.timestamp, line.stats)))
    else if line.kind == "failure"
    then Some(Write(FailureKind, StatsEntry(line.configHash, line.timestamp, line.stats)))
    else None
  }

  function LineOp(): Line -> Option<Op> {
    line => OpOf(line)
  }

  function OpsOf(lines: seq<Line>): seq<Op> {
    Selected(lines, LineOp())
  }

  // --- Complete images of the two caches ---

  function Block(kind: Kind, hash: string, entries: seq<StatsEntry>): seq<Line> {
    if entries == [] then [] else
    Block(kind, hash, entries[..|entries| - 1]) + [LineOf(kind, hash, Last(entries))]
  }

  function Image(kind: Kind, cache: Cache, order: seq<string>): seq<Line>
    requires forall h :: h in order ==> h in cache
  {
    if order == [] then [] else
    Image(kind, cache, order[..|order| - 1]) + Block(kind, Last(order), cache[Last(order)])
  }

  // order lists the keys of the cache, each once.
  ghost predicate Orders(order: seq<string>, cache: Cache) {
    && (forall h :: h in order <==> h in cache)
    && (forall i, j :: 0 <= i < j < |order| ==> order[i] != order[j])
  }

  // Every entry of both caches, written in some order of either map's keys.
  ghost predicate IsImage(lines: seq<Line>, stats: Cache, failures: Cache) {
    exists so: seq<string>, fo: seq<string> :: Orders(so, stats) && Orders(fo, failures)
      && lines == Image(StatsKind, stats, so) + Image(FailureKind, failures, fo)
  }

  lemma BothImages(lines: seq<Line>, stats: Cache, so: seq<string>, failures: Cache, fo: seq<string>)
    requires Orders(so, stats) && Orders(fo, failures)
    requires lines == [] + Image(StatsKind, stats, so) + Image(FailureKind, failures, fo)
    ensures IsImage(lines, stats, failures)
  {
    assert [] + Image(StatsKind, stats, so) == Image(StatsKind, stats, so);
  }

  // A limit that is not positive is no limit.
  function Newest(entries: seq<StatsEntry>, limit: int): seq<StatsEntry> {
    if limit > 0 then LastN(entries, limit) else entries
  }

  // The last limit of them, or all if there are no more or the limit is not positive.
  ghost predicate LastOf(entries: seq<StatsEntry>, limit: int, r: seq<StatsEntry>) {
    IsSuffix(r, entries) && |r| == if 0 < limit < |entries| then limit else |entries|
  }

  function Cached(cache: Cache, hash: string): seq<StatsEntry> {
    if hash in cache then cache[hash] else []
  }

  // The cache holds the newest entries of every hash, and no key without any.
  ghost predicate Represents(cache: Cache, ops: seq<Op>, kind: Kind) {
    forall h :: Cached(cache, h) == LastN(View(ops, kind, h), MAX_ENTRIES) && (h in cache ==> cache[h] != [])
  }

  function CacheStep(cache: Cache, kind: Kind, op: Op): Cache {
    if op.Clear? then map[]
    else if op.kind != kind then cache
    else cache[op.entry.configHash := LastN(Cached(cache, op.entry.configHash) + [op.entry], MAX_ENTRIES)]
  }

  lemma RepresentsStep(cache: Cache, ops: seq<Op>, kind: Kind, op: Op)
    requires Represents(cache, ops, kind)
    ensures Represents(CacheStep(cache, kind, op), ops + [op], kind)
  {
    var cache' := CacheStep(cache, kind, op);
    forall h
      ensures Cached(cache', h) == LastN(View(ops + [op], kind, h), MAX_ENTRIES) && (h in cache' ==> cache'[h] != [])
    {
      ViewSnoc(ops, op, kind, h);
      assert Cached(cache, h) == LastN(View(ops, kind, h), MAX_ENTRIES);
      if op.Write? && op.kind == kind && op.entry.configHash == h {
        LastNAppend(View(ops, kind, h), op.entry, MAX_ENTRIES);
      }
    }
  }

  // --- The file system ---

  // Which operation of a rewrite fails; write is the number of the first line
  // that cannot be encoded or written.
  datatype Faults = Faults(createTemp: bool, write: Option<nat>, sync: bool, closeTemp: bool, rename: bool,
                           closeOld: bool, reopen: bool)

  // Everything seen since before is one of two contents.
  ghost predicate SeenOnly(before: seq<seq<Line>>, after: seq<seq<Line>>, a: seq<Line>, b: seq<Line>) {
    before <= after && forall i :: |before| <= i < |after| ==> after[i] == a || after[i] == b
  }

  // The file at the storage's path and the temporary file. seen records what the
  // path held after every operation: a crash leaves one of these behind.
  class Disk {
    var content: seq<Line>
    var temp: seq<Line>
    ghost var seen: seq<seq<Line>>

    constructor (content: seq<Line>)
      ensures this.content == content && seen == []
    {
      this.content, temp, seen := content, [], [];
    }

    method CreateTemp()
      modifies this
      ensures temp == [] && content == old(content) && seen == old(seen) + [content]
    {
      temp, seen := [], seen + [content];
    }

    method WriteTemp(line: Line)
      modifies this
      ensures temp == old(temp) + [line] && content == old(content) && seen == old(seen) + [content]
    {
      temp, seen := temp + [line], seen + [content];
    }

    method Rename()
      modifies this
      ensures content == old(temp) && seen == old(seen) + [content]
    {
      content := temp;
      temp, seen := [], seen + [content];
    }

    method Truncate()
      modifies this
      ensures content == [] && seen == old(seen) + [content]
    {
      content := [];
      seen := seen + [content];
    }
  }

  // The storage's file field: nil, usable, or an os.File that is already closed.
  datatype Handle = NoFile | OpenFile | ClosedFile

  datatype Outcome = Done | FailedBefore | FailedAfter  // the rename

  class FileStorage {
    const disk: Disk
    var statsCache: Cache
    var failuresCache: Cache
    var file: Handle
    ghost var history: seq<Op>

    ghost predicate Valid()
      reads this
    {
      Represents(statsCache, history, StatsKind) && Represents(failuresCache, history, FailureKind)
    }

    // The file holds exactly what the caches hold.
    ghost predicate Synced()
      reads this, disk
    {
      IsImage(disk.content, statsCache, failuresCache)
    }

    ghost function CacheOf(kind: Kind): Cache
      reads this
    {
      if kind.StatsKind? then statsCache else failuresCache
    }

    constructor (disk: Disk)
      ensures Valid() && this.disk == disk && file == OpenFile && history == []
    {
      this.disk := disk;
      statsCache, failuresCache, file, history := map[], map[], OpenFile, [];
    }

    // errorAt is the line before which reading the file fails, if it does.
    method LoadFromFile(errorAt: Option<nat>) returns (ok: bool)
      requires Valid() && history == []
      modifies this`statsCache, this`failuresCache, this`history
      ensures Valid() && ok == errorAt.None?
      ensures ok ==> history == OpsOf(disk.content)
    {
      var lines := disk.content;
      for i := 0 to |lines|
        invariant Valid() && history == OpsOf(lines[..i])
      {
        if errorAt == Some(i) {
          return false;
        }
        assert lines[..i + 1] == lines[..i] + [lines[i]];
        SelectedSnoc(lines[..i], lines[i], LineOp());
        LoadLine(lines[i]);
      }
      assert lines[..|lines|] == lines;
      return errorAt.None?;
    }

    // One line of the file; one that does not decode is skipped.
    method LoadLine(line: Line)
      requires Valid()
      modifies this`statsCache, this`failuresCache, this`history
      ensures Valid()
      ensures history == if OpOf(line).Some? then old(history) + [OpOf(line).value] else old(history)
    {
      var op := OpOf(line);
      if op.None? {
        return;
      }
      if op.value.kind.StatsKind? {
        statsCache := AddToCache(statsCache, op.value.entry.configHash, op.value.entry);
      } else {
        failuresCache := AddToCache(failuresCache, op.value.entry.configHash, op.value.entry);
      }
      RepresentsStep(old(statsCache), history, StatsKind, op.value);
      RepresentsStep(old(failuresCache), history, FailureKind, op.value);
      history := history + [op.value];
    }

    method AddToCache(cache: Cache, hash: string, entry: StatsEntry) returns (cache': Cache)
      ensures cache' == cache[hash := LastN(Cached(cache, hash) + [entry], MAX_ENTRIES)]
    {
      var entries := (if hash in cache then cache[hash] else []) + [entry];
      ghost var all := entries;
      while |entries| > MAX_ENTRIES
        invariant IsSuffix(entries, all) && (|all| > MAX_ENTRIES ==> |entries| >= MAX_ENTRIES)
        invariant |all| <= MAX_ENTRIES ==> entries == all
      {
        entries := entries[1..];
      }
      cache' := cache[hash := entries];
    }

    method WriteStats(hash: string, stats: Stats, faults: Faults) returns (ok: bool)
      requires Valid()
      modifies this, disk
      ensures Valid() && history == old(history) + [WriteOf(StatsKind, hash, stats)]
      ensures failuresCache == old(failuresCache)
      ensures SeenOnly(old(disk.seen), disk.seen, old(disk.content), disk.content)
      ensures disk.content == old(disk.content) || Synced()
      ensures ok ==> Synced() && file == OpenFile
      ensures old(file) == OpenFile && faults == NO_FAULTS ==> ok
      ensures old(file) != OpenFile ==> !ok && file != OpenFile
    {
      var entry := StatsEntry(hash, stats.timestamp, stats);
      statsCache := AddToCache(statsCache, hash, entry);
      RepresentsStep(old(statsCache), history, StatsKind, Write(StatsKind, entry));
      RepresentsStep(old(failuresCache), history, FailureKind, Write(StatsKind, entry));
      history := history + [Write(StatsKind, entry)];
      var outcome := RewriteEntireFile(faults);
      ok := outcome.Done?;
    }

    method WriteFailure(hash: string, stats: Stats, faults: Faults) returns (ok: bool)
      requires Valid()
      modifies this, disk
      ensures Valid() && history == old(history) + [WriteOf(FailureKind, hash, stats)]
      ensures statsCache == old(statsCache)
      ensures SeenOnly(old(disk.seen), disk.seen, old(disk.content), disk.content)
      ensures disk.content == old(disk.content) || Synced()
      ensures ok ==> Synced() && file == OpenFile
      ensures old(file) == OpenFile && faults == NO_FAULTS ==> ok
      ensures old(file) != OpenFile ==> !ok && file != OpenFile
    {
      var entry := StatsEntry(hash, stats.timestamp, stats);
      failuresCache := AddToCache(failuresCache, hash, entry);
      RepresentsStep(old(statsCache), history, StatsKind, Write(FailureKind, entry));
      RepresentsStep(old(failuresCache), history, FailureKind, Write(FailureKind, entry));
      history := history + [Write(FailureKind, entry)];
      var outcome := RewriteEntireFile(faults);
      ok := outcome.Done?;
    }

    // The body of GetStats and GetFailures, which differ in the cache they read.
    method Get(kind: Kind, hash: string, limit: int, since: Option<int>) returns (r: seq<StatsEntry>)
      requires Valid()
      ensures r == Newest(NotBefore(LastN(View(history, kind, hash), MAX_ENTRIES), since), limit)
      ensures LastOf(NotBefore(LastN(View(history, kind, hash), 10), since), limit, r)
    {
      var cache := if kind.StatsKind? then statsCache else failuresCache;
      assert Cached(cache, hash) == LastN(View(history, kind, hash), MAX_ENTRIES);
      if hash !in cache {
        assert NotBefore([], since) == [];
        return [];
      }
      var filtered := Filter(cache[hash], since);
      r := Limited(filtered, limit);
    }

    method Limited(filtered: seq<StatsEntry>, limit: int) returns (r: seq<StatsEntry>)
      ensures r == Newest(filtered, limit) && LastOf(filtered, limit, r)
    {
      r := filtered;
      if limit > 0 && |r| > limit {
        var start := |r| - limit;
        r := r[start..];
      }
    }

    method Filter(entries: seq<StatsEntry>, since: Option<int>) returns (r: seq<StatsEntry>)
      ensures r == NotBefore(entries, since)
    {
      r := [];
      for i := 0 to |entries|
        invariant r == NotBefore(entries[..i], since)
      {
        assert entries[..i + 1][..i] == entries[..i];
        if since.Some? && entries[i].timestamp < since.value {
          continue;
        }
        r := r + [entries[i]];
      }
      assert entries[..|entries|] == entries;
    }

    method Close(closeFails: bool) returns (ok: bool)
      modifies this`file
      ensures file == NoFile
      // A file that is closed already, by a rewrite that went wrong, cannot be closed.
      ensures ok <==> old(file) == NoFile || (old(file) == OpenFile && !closeFails)
    {
      ok := file == NoFile || (file == OpenFile && !closeFails);
      file := NoFile;
    }

    method Clear(openFails: bool) returns (ok: bool)
      requires Valid()
      modifies this, disk
      ensures Valid() && history == old(history) + [Op.Clear]
      ensures statsCache == map[] && failuresCache == map[]
      ensures ok == !openFails
      // Clearing makes any handle usable again; failing to leaves the old content.
      ensures ok ==> Synced() && file == OpenFile && disk.content == []
      ensures !ok ==> disk.content == old(disk.content) && file != OpenFile
      ensures SeenOnly(old(disk.seen), disk.seen, disk.content, disk.content)
    {
      statsCache, failuresCache := map[], map[];
      RepresentsStep(old(statsCache), history, StatsKind, Op.Clear);
      RepresentsStep(old(failuresCache), history, FailureKind, Op.Clear);
      history := history + [Op.Clear];
      if file != NoFile {
        file := ClosedFile;
      }
      if openFails {
        return false;
      }
      disk.Truncate();
      assert Orders([], statsCache);
      assert disk.content == Image(StatsKind, statsCache, []) + Image(FailureKind, failuresCache, []);
      file := OpenFile;
      return true;
    }

    method RewriteEntireFile(faults: Faults) returns (outcome: Outcome)
      modifies disk, this`file
      ensures outcome.FailedBefore? ==> disk.content == old(disk.content) && file == old(file)
      ensures !outcome.FailedBefore? ==> Synced()
      ensures outcome.Done? ==> old(file) == OpenFile && !faults.closeOld && !faults.reopen && file == OpenFile
      ensures outcome.FailedAfter? ==>
        file == if faults.closeOld || old(file) == ClosedFile then ClosedFile else NoFile
      ensures old(file) == OpenFile && faults == NO_FAULTS ==> outcome.Done?
      ensures old(file) == NoFile || faults.createTemp || faults.sync || faults.closeTemp || faults.rename ==>
        outcome.FailedBefore?
      ensures SeenOnly(old(disk.seen), disk.seen, old(disk.content), disk.content)
    {
      if file == NoFile {
        return FailedBefore;
      }
      var prepared := PrepareTemp(faults);
      if !prepared || faults.rename {
        return FailedBefore;
      }
      disk.Rename();
      if faults.closeOld || file == ClosedFile {
        file := ClosedFile;
        return FailedAfter;
      }
      if faults.reopen {
        file := NoFile;
        return FailedAfter;
      }
      file := OpenFile;
      return Done;
    }

    // The temporary file, up to its closing.
    method PrepareTemp(faults: Faults) returns (ok: bool)
      modifies disk
      ensures disk.content == old(disk.content)
      ensures SeenOnly(old(disk.seen), disk.seen, disk.content, disk.content)
      ensures ok ==> IsImage(disk.temp, statsCache, failuresCache)
      ensures faults.createTemp || faults.sync || faults.closeTemp ==> !ok
      ensures faults == NO_FAULTS ==> ok
    {
      if faults.createTemp {
        return false;
      }
      disk.CreateTemp();
      ok := WriteAllData(faults.write);
      ok := ok && !faults.sync && !faults.closeTemp;
    }

    method WriteAllData(failAt: Option<nat>) returns (ok: bool)
      requires disk.temp == []
      modifies disk
      ensures disk.content == old(disk.content)
      ensures SeenOnly(old(disk.seen), disk.seen, disk.content, disk.content)
      ensures failAt.None? ==> ok
      ensures ok ==> IsImage(disk.temp, statsCache, failuresCache)
    {
      ghost var so, fo;
      ok, so := WriteCache(StatsKind, statsCache, failAt);
      if ok {
        ok, fo := WriteCache(FailureKind, failuresCache, failAt);
        if ok {
          BothImages(disk.temp, statsCache, so, failuresCache, fo);
        }
      }
    }

    // The iteration over one map, in whatever order it yields the keys.
    method WriteCache(kind: Kind, cache: Cache, failAt: Option<nat>) returns (ok: bool, ghost order: seq<string>)
      modifies disk
      ensures disk.content == old(disk.content)
      ensures SeenOnly(old(disk.seen), disk.seen, disk.content, disk.content)
      ensures failAt.None? ==> ok
      ensures ok ==> Orders(order, cache) && disk.temp == old(disk.temp) + Image(kind, cache, order)
    {
      order := [];
      var keys := cache.Keys;
      while keys != {}
        invariant keys <= cache.Keys && (forall h :: h in order <==> h in cache.Keys - keys)
        invariant forall i, j :: 0 <= i < j < |order| ==> order[i] != order[j]
        invariant disk.content == old(disk.content)
        invariant SeenOnly(old(disk.seen), disk.seen, disk.content, disk.content)
        invariant disk.temp == old(disk.temp) + Image(kind, cache, order)
        decreases keys
      {
        var hash :| hash in keys;
        ok := WriteEntries(kind, hash, cache[hash], failAt);
        if !ok {
          return;
        }
        assert hash !in order && (order + [hash])[..|order|] == order;
        order := order + [hash];
        keys := keys - {hash};
      }
      return true, order;
    }

    method WriteEntries(kind: Kind, hash: string, entries: seq<StatsEntry>, failAt: Option<nat>) returns (ok: bool)
      modifies disk
      ensures disk.content == old(disk.content)
      ensures SeenOnly(old(disk.seen), disk.seen, disk.content, disk.content)
      ensures failAt.None? ==> ok
      ensures ok ==> disk.temp == old(disk.temp) + Block(kind, hash, entries)
    {
      for i := 0 to |entries|
        invariant disk.content == old(disk.content)
        invariant SeenOnly(old(disk.seen), disk.seen, disk.content, disk.content)
        invariant disk.temp == old(disk.temp) + Block(kind, hash, entries[..i])
      {
        if failAt == Some(|disk.temp|) {
          return false;
        }
        assert entries[..i + 1][..i] == entries[..i];
        disk.WriteTemp(LineOf(kind, hash, entries[i]));
      }
      assert entries[..|entries|] == entries;
      return true;
    }
  }

  // Opening an existing or absent file and loading what it holds.
  method NewFileStorage(disk: Disk, openFails: bool, errorAt: Option<nat>) returns (fs: FileStorage?)
    ensures fs == null <==> openFails || errorAt.Some?
    ensures fs != null ==>
      fresh(fs) && fs.Valid() && fs.disk == disk && fs.file == OpenFile && fs.history == OpsOf(disk.content)
  {
    if openFails {
      return null;
    }
    fs := new FileStorage(disk);
    var ok := fs.LoadFromFile(errorAt);
    if !ok {
      return null;
    }
  }

  const NO_FAULTS := Faults(false, None, false, false, false, false, false)
}
