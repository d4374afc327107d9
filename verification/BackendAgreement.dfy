// What the Badger storage returns in terms of what was written, and where the
// two storages agree.
module BackendAgreement {
  import opened Sequences
  import opened Decimal
  import opened StatsModel
  import opened FileStore
  import opened FileReopen
  import opened BadgerKeys
  import opened BadgerStore

  lemma {:induction false} HavingPrefixMembers(items: seq<Item>, prefix: string)
    ensures forall it :: it in HavingPrefix(items, prefix) <==> it in items && prefix <= it.key
  {
    if items == [] {
    } else {
      HavingPrefixMembers(items[..|items| - 1], prefix);
      assert items == items[..|items| - 1] + [Last(items)];
    }
  }

  lemma {:induction false} HavingPrefixSorted(items: seq<Item>, prefix: string)
    requires Sorted(items)
    ensures Sorted(HavingPrefix(items, prefix))
  {
    if items == [] {
    } else {
      var init := items[..|items| - 1];
      HavingPrefixSorted(init, prefix);
      HavingPrefixMembers(init, prefix);
      forall i | 0 <= i < |HavingPrefix(init, prefix)|
        ensures LexLess(HavingPrefix(init, prefix)[i].key, Last(items).key)
      {
        assert HavingPrefix(init, prefix)[i] in init;
      }
    }
  }

  ghost predicate SameItems(a: seq<Item>, b: seq<Item>) {
    forall it :: it in a <==> it in b
  }

  // An ordered map is determined by what it holds.
  lemma {:induction false} SortedIsUnique(a: seq<Item>, b: seq<Item>)
    requires Sorted(a) && Sorted(b) && SameItems(a, b)
    ensures a == b
  {
    NonEmptyCarries(a, b);
    NonEmptyCarries(b, a);
    if a == [] {
    } else {
      LastIsGreatest(a, b);
      SameButLast(a, b);
      SortedIsUnique(a[..|a| - 1], b[..|b| - 1]);
      assert a == a[..|a| - 1] + [Last(a)] && b == b[..|b| - 1] + [Last(b)];
    }
  }

  lemma SameButLast(a: seq<Item>, b: seq<Item>)
    requires Sorted(a) && Sorted(b) && a != [] && b != [] && Last(a) == Last(b) && SameItems(a, b)
    ensures SameItems(a[..|a| - 1], b[..|b| - 1])
  {
    var a', b' := a[..|a| - 1], b[..|b| - 1];
    assert a == a' + [Last(a)] && b == b' + [Last(b)];
    LastIsNotBefore(a);
    LastIsNotBefore(b);
    forall it ensures it in a' <==> it in b' {
      assert it in a <==> it in a' || it == Last(a);
      assert it in b <==> it in b' || it == Last(b);
    }
  }

  lemma NonEmptyCarries(a: seq<Item>, b: seq<Item>)
    requires forall it :: it in a ==> it in b
    ensures a != [] ==> b != []
  {
    if a != [] {
      assert a[0] in a;
    }
  }

  lemma LastIsNotBefore(a: seq<Item>)
    requires Sorted(a) && a != []
    ensures Last(a) !in a[..|a| - 1]
  {
    forall i | 0 <= i < |a| - 1 ensures a[i] != Last(a) {
      LexAsymmetric(a[i].key, Last(a).key);
    }
  }

  lemma LastIsGreatest(a: seq<Item>, b: seq<Item>)
    requires Sorted(a) && Sorted(b) && a != [] && b != [] && SameItems(a, b)
    ensures Last(a) == Last(b)
  {
    assert Last(a) in a && Last(b) in b;
    var i :| 0 <= i < |b| && b[i] == Last(a);
    var j :| 0 <= j < |a| && a[j] == Last(b);
    if i < |b| - 1 {
      assert LexLess(Last(a).key, Last(b).key);
      LexAsymmetric(Last(a).key, Last(b).key);
    }
  }

  // --- The keys of one kind and hash ---

  // Below its prefix the database holds exactly the last write of every
  // millisecond of that kind and hash, and nothing of any other.
  lemma PrefixHoldsOwnWrites(items: seq<Item>, ops: seq<Op>, kind: Kind, hash: string, key: string, value: Stats)
    requires Mirrors(items, ops) && AllPrintable(ops) && ':' !in hash
    ensures Item(key, value) in HavingPrefix(items, Prefix(kind, hash)) <==>
            exists millis :: IsInt64(millis) && key == Key(kind, hash, millis)
              && LastWrite(ops, Key(kind, hash, millis)) == Some(value)
  {
    HavingPrefixMembers(items, Prefix(kind, hash));
    assert Holds(items, key, value) <==> LastWrite(ops, key) == Some(value);
    if Prefix(kind, hash) <= key && LastWrite(ops, key).Some? {
      var op := WriterOf(ops, key);
      PrefixSelects(kind, hash, op.kind, op.entry.configHash, Millis(op.entry.timestamp));
      assert key == Key(kind, hash, Millis(op.entry.timestamp));
    }
  }

  lemma {:induction false} WriterOf(ops: seq<Op>, key: string) returns (op: Op)
    requires AllPrintable(ops) && LastWrite(ops, key).Some?
    ensures op.Write? && KeyOf(op) == key && Printable(op)
  {
    op := Last(ops);
    if KeyOf(op) != key {
      op := WriterOf(ops[..|ops| - 1], key);
    }
  }

  // The printed millisecond of the one sorts before that of the other.
  predicate SortsBefore(e: StatsEntry, e': StatsEntry) {
    LexLess(PrintInt(Millis(e.timestamp)), PrintInt(Millis(e'.timestamp)))
  }

  predicate KeysAscend(entries: seq<StatsEntry>) {
    forall i, j :: 0 <= i < j < |entries| ==> SortsBefore(entries[i], entries[j])
  }

  function ItemOf(kind: Kind, hash: string, e: StatsEntry): Item {
    Item(Key(kind, hash, Millis(e.timestamp)), e.stats)
  }

  function ItemsOf(kind: Kind, hash: string, entries: seq<StatsEntry>): (r: seq<Item>)
    ensures |r| == |entries| && forall i :: 0 <= i < |r| ==> r[i] == ItemOf(kind, hash, entries[i])
  {
    if entries == [] then [] else ItemsOf(kind, hash, entries[..|entries| - 1]) + [ItemOf(kind, hash, Last(entries))]
  }

  lemma KeyOrderIsPrinted(kind: Kind, hash: string, e: StatsEntry, e': StatsEntry)
    ensures LexLess(ItemOf(kind, hash, e).key, ItemOf(kind, hash, e').key) <==> SortsBefore(e, e')
  {
    LexCommonPrefix(Prefix(kind, hash), PrintInt(Millis(e.timestamp)), PrintInt(Millis(e'.timestamp)));
  }

  lemma SortedIffAscending(kind: Kind, hash: string, entries: seq<StatsEntry>)
    ensures Sorted(ItemsOf(kind, hash, entries)) <==> KeysAscend(entries)
  {
    var items := ItemsOf(kind, hash, entries);
    forall i, j | 0 <= i < j < |entries|
      ensures LexLess(items[i].key, items[j].key) <==> SortsBefore(entries[i], entries[j])
    {
      KeyOrderIsPrinted(kind, hash, entries[i], entries[j]);
    }
  }

  // An entry that sorts after all before gets a key that none of them has.
  lemma KeyIsNew(kind: Kind, hash: string, before: seq<StatsEntry>, e: StatsEntry)
    requires KeysAscend(before + [e])
    ensures forall value :: Item(ItemOf(kind, hash, e).key, value) !in ItemsOf(kind, hash, before)
  {
    var all, key := before + [e], ItemOf(kind, hash, e).key;
    forall i | 0 <= i < |before| ensures ItemOf(kind, hash, before[i]).key != key {
      assert SortsBefore(all[i], all[|before|]);
      KeyOrderIsPrinted(kind, hash, before[i], e);
      LexAsymmetric(key, key);
    }
  }

  lemma ItemsSnoc(kind: Kind, hash: string, before: seq<StatsEntry>, e: StatsEntry)
    ensures ItemsOf(kind, hash, before + [e]) == ItemsOf(kind, hash, before) + [ItemOf(kind, hash, e)]
  {
    assert (before + [e])[..|before|] == before;
  }

  lemma AscendPrefix(before: seq<StatsEntry>, e: StatsEntry)
    requires KeysAscend(before + [e])
    ensures KeysAscend(before)
  {
    forall i, j | 0 <= i < j < |before| ensures SortsBefore(before[i], before[j]) {
      assert (before + [e])[i] == before[i] && (before + [e])[j] == before[j];
    }
  }

  lemma {:induction false} LastWriteInView(ops: seq<Op>, kind: Kind, hash: string, key: string, value: Stats)
    requires AllPrintable(ops) && ':' !in hash && Prefix(kind, hash) <= key && KeysAscend(View(ops, kind, hash))
    ensures LastWrite(ops, key) == Some(value) <==> Item(key, value) in ItemsOf(kind, hash, View(ops, kind, hash))
  {
    if ops == [] || Last(ops).Clear? {
    } else {
      var init, op := ops[..|ops| - 1], Last(ops);
      var before := View(init, kind, hash);
      PrefixSelects(kind, hash, op.kind, op.entry.configHash, Millis(op.entry.timestamp));
      if Concerns(op, kind, hash) {
        AscendPrefix(before, op.entry);
        LastWriteInView(init, kind, hash, key, value);
        KeyIsNew(kind, hash, before, op.entry);
        ItemsSnoc(kind, hash, before, op.entry);
      } else {
        LastWriteInView(init, kind, hash, key, value);
      }
    }
  }

  // A scan yields the writes in the order they were made exactly when their printed
  // milliseconds ascend; in particular no two of them are equal.
  lemma ScanIsViewIffAscending(items: seq<Item>, ops: seq<Op>, kind: Kind, hash: string)
    requires Mirrors(items, ops) && AllPrintable(ops) && ':' !in hash
    ensures HavingPrefix(items, Prefix(kind, hash)) == ItemsOf(kind, hash, View(ops, kind, hash))
      <==> KeysAscend(View(ops, kind, hash))
  {
    var prefix, view := Prefix(kind, hash), View(ops, kind, hash);
    HavingPrefixSorted(items, prefix);
    SortedIffAscending(kind, hash, view);
    if KeysAscend(view) {
      SameMembers(items, ops, kind, hash);
      SortedIsUnique(HavingPrefix(items, prefix), ItemsOf(kind, hash, view));
    }
  }

  lemma SameMembers(items: seq<Item>, ops: seq<Op>, kind: Kind, hash: string)
    requires Mirrors(items, ops) && AllPrintable(ops) && ':' !in hash && KeysAscend(View(ops, kind, hash))
    ensures forall it ::
      it in HavingPrefix(items, Prefix(kind, hash)) <==> it in ItemsOf(kind, hash, View(ops, kind, hash))
  {
    var prefix, view := Prefix(kind, hash), View(ops, kind, hash);
    HavingPrefixMembers(items, prefix);
    forall it ensures it in HavingPrefix(items, prefix) <==> it in ItemsOf(kind, hash, view) {
      if prefix <= it.key {
        assert Holds(items, it.key, it.value) <==> LastWrite(ops, it.key) == Some(it.value);
        LastWriteInView(ops, kind, hash, it.key, it.value);
      }
    }
  }

  // Milliseconds strictly increase.
  predicate Increasing(entries: seq<StatsEntry>) {
    forall i, j :: 0 <= i < j < |entries| ==> Millis(entries[i].timestamp) < Millis(entries[j].timestamp)
  }

  // The printed form of the smaller number is as wide as that of the larger one, or
  // does not exceed its leading digits.
  predicate PrintsInOrder(m: nat, n: nat) {
    Width(m) == Width(n) || m <= Leading(n, Width(m))
  }

  // For increasing milliseconds since 1970, exactly when the printed ones ascend.
  lemma IncreasingKeysAscendIff(entries: seq<StatsEntry>)
    requires Increasing(entries) && forall i :: 0 <= i < |entries| ==> Millis(entries[i].timestamp) >= 0
    ensures KeysAscend(entries) <==>
            forall i, j :: 0 <= i < j < |entries| ==>
              PrintsInOrder(Millis(entries[i].timestamp), Millis(entries[j].timestamp))
  {
    forall i, j | 0 <= i < j < |entries|
      ensures SortsBefore(entries[i], entries[j])
        <==> PrintsInOrder(Millis(entries[i].timestamp), Millis(entries[j].timestamp))
    {
      PrintedOrder(Millis(entries[i].timestamp), Millis(entries[j].timestamp));
    }
  }

  // --- What a Badger read returns ---

  // A timestamp as Badger's keys preserve it.
  function Truncate(e: StatsEntry): StatsEntry {
    e.(timestamp := Millis(e.timestamp) * NANOS_PER_MILLI)
  }

  function Truncated(entries: seq<StatsEntry>): (r: seq<StatsEntry>)
    ensures |r| == |entries|
  {
    if entries == [] then [] else Truncated(entries[..|entries| - 1]) + [Truncate(Last(entries))]
  }

  lemma {:induction false} TruncatedAt(entries: seq<StatsEntry>)
    ensures forall i :: 0 <= i < |entries| ==> Truncated(entries)[i] == Truncate(entries[i])
  {
    if entries == [] {
    } else {
      TruncatedAt(entries[..|entries| - 1]);
    }
  }

  lemma TruncatedSnoc(entries: seq<StatsEntry>, e: StatsEntry)
    ensures Truncated(entries + [e]) == Truncated(entries) + [Truncate(e)]
  {
    assert (entries + [e])[..|entries|] == entries;
  }

  // The next whole millisecond.
  function RoundUp(t: int): int {
    -((-t) / NANOS_PER_MILLI) * NANOS_PER_MILLI
  }

  function Rounded(since: Option<int>): Option<int> {
    if since.None? then None else Some(RoundUp(since.value))
  }

  lemma RoundUpIsNext(t: int)
    ensures t <= RoundUp(t) < t + NANOS_PER_MILLI && RoundUp(t) % NANOS_PER_MILLI == 0
    ensures t % NANOS_PER_MILLI == 0 ==> RoundUp(t) == t
  {
  }

  // A truncated timestamp is before the cut-off exactly when the timestamp is before
  // the next whole millisecond.
  lemma TruncationRoundsCutOff(t: int, since: int)
    ensures Millis(t) * NANOS_PER_MILLI < since <==> t < RoundUp(since)
  {
    var q, c := Millis(t), -((-since) / NANOS_PER_MILLI);
    assert (c - 1) * NANOS_PER_MILLI < since <= c * NANOS_PER_MILLI;
    assert q * NANOS_PER_MILLI <= t < (q + 1) * NANOS_PER_MILLI;
  }

  predicate HasKey(e: StatsEntry, hash: string) {
    e.configHash == hash && IsInt64(Millis(e.timestamp))
  }

  // What a printed key is read back as: the write with its timestamp truncated,
  // unless it is before the rounded cut-off.
  lemma ShownItem(kind: Kind, hash: string, e: StatsEntry, since: Option<int>)
    requires ':' !in hash && HasKey(e, hash)
    ensures Shown(ItemOf(kind, hash, e), since) ==
            if since.Some? && e.timestamp < RoundUp(since.value) then None else Some(Truncate(e))
  {
    KeyRoundTrip(kind, hash, Millis(e.timestamp));
    if since.Some? {
      TruncationRoundsCutOff(e.timestamp, since.value);
    }
  }

  function TruncateSince(since: Option<int>): StatsEntry -> Option<StatsEntry> {
    (e: StatsEntry) => if since.Some? && e.timestamp < since.value then None else Some(Truncate(e))
  }

  lemma {:induction false} TruncatedIsSelected(entries: seq<StatsEntry>, since: Option<int>)
    ensures Truncated(NotBefore(entries, since)) == Selected(entries, TruncateSince(since))
  {
    if entries == [] {
    } else {
      TruncatedIsSelected(entries[..|entries| - 1], since);
      TruncatedSnoc(NotBefore(entries[..|entries| - 1], since), Last(entries));
    }
  }

  lemma VisibleOfItems(kind: Kind, hash: string, entries: seq<StatsEntry>, since: Option<int>)
    requires ':' !in hash && forall i :: 0 <= i < |entries| ==> HasKey(entries[i], hash)
    ensures Visible(ItemsOf(kind, hash, entries), since) == Truncated(NotBefore(entries, Rounded(since)))
  {
    var items := ItemsOf(kind, hash, entries);
    forall i | 0 <= i < |entries| ensures ShownSince(since)(items[i]) == TruncateSince(Rounded(since))(entries[i]) {
      ShownItem(kind, hash, entries[i], since);
    }
    SelectedPointwise(items, entries, ShownSince(since), TruncateSince(Rounded(since)));
    TruncatedIsSelected(entries, Rounded(since));
  }

  lemma {:induction false} ViewIsPrintable(ops: seq<Op>, kind: Kind, hash: string)
    requires AllPrintable(ops)
    ensures forall i :: 0 <= i < |View(ops, kind, hash)| ==> HasKey(View(ops, kind, hash)[i], hash)
  {
    if ops == [] {
    } else {
      ViewIsPrintable(ops[..|ops| - 1], kind, hash);
    }
  }

  // What a Badger read wants to return, in terms of the writes and for any cut-off.
  lemma BadgerWants(items: seq<Item>, ops: seq<Op>, kind: Kind, hash: string, since: Option<int>)
    requires Mirrors(items, ops) && AllPrintable(ops) && ':' !in hash && KeysAscend(View(ops, kind, hash))
    ensures Visible(HavingPrefix(items, Prefix(kind, hash)), since)
         == Truncated(NotBefore(View(ops, kind, hash), Rounded(since)))
  {
    ScanIsViewIffAscending(items, ops, kind, hash);
    ViewIsPrintable(ops, kind, hash);
    VisibleOfItems(kind, hash, View(ops, kind, hash), since);
  }

  lemma {:induction false} LaterKeepsFewer(entries: seq<StatsEntry>, since: int, later: int)
    requires since <= later
    ensures |NotBefore(entries, Some(later))| <= |NotBefore(entries, Some(since))|
  {
    if entries == [] {
    } else {
      LaterKeepsFewer(entries[..|entries| - 1], since, later);
    }
  }

  // The rounding of the cut-off is seen exactly if an entry lies in between.
  lemma {:induction false} RoundingSeenIff(entries: seq<StatsEntry>, since: int, later: int)
    requires since <= later
    ensures NotBefore(entries, Some(since)) == NotBefore(entries, Some(later))
      <==> forall e :: e in entries ==> !(since <= e.timestamp < later)
  {
    if entries == [] {
    } else {
      var init, e := entries[..|entries| - 1], Last(entries);
      assert entries == init + [e];
      RoundingSeenIff(init, since, later);
      LaterKeepsFewer(init, since, later);
      var a, b := NotBefore(init, Some(since)), NotBefore(init, Some(later));
      assert (a + [e])[..|a|] == a && (b + [e])[..|b|] == b;
    }
  }

  // --- Where both backends agree ---

  lemma IncreasingIsChronological(entries: seq<StatsEntry>)
    requires Increasing(entries)
    ensures Chronological(entries)
  {
    forall i, j | 0 <= i < j < |entries| ensures entries[i].timestamp <= entries[j].timestamp {
      assert Millis(entries[i].timestamp) < Millis(entries[j].timestamp);
    }
  }

  lemma TruncatedSuffix(t: seq<StatsEntry>, s: seq<StatsEntry>)
    requires IsSuffix(t, s)
    ensures IsSuffix(Truncated(t), Truncated(s))
  {
    TruncatedAt(t);
    TruncatedAt(s);
    assert Truncated(t) == Truncated(s)[|s| - |t|..];
  }

  ghost predicate AllDiffer<T>(s: seq<T>) {
    forall i, j :: 0 <= i < j < |s| ==> s[i] != s[j]
  }

  lemma TruncatedDiffer(entries: seq<StatsEntry>)
    requires Increasing(entries)
    ensures AllDiffer(Truncated(entries))
  {
    TruncatedAt(entries);
    forall i, j | 0 <= i < j < |entries| ensures Truncated(entries)[i] != Truncated(entries)[j] {
      assert Truncate(entries[i]).timestamp < Truncate(entries[j]).timestamp;
    }
  }

  // Of two stretches up to the end, the start of the one under a limit and the other.
  lemma CutsAgree(all: seq<StatsEntry>, a: seq<StatsEntry>, b: seq<StatsEntry>, limit: int)
    requires IsSuffix(a, all) && IsSuffix(b, all) && AllDiffer(all) && (limit > 0 ==> |b| <= limit)
    ensures Oldest(a, limit) == b <==> if limit < 0 then b == [] else (limit == 0 || limit >= |a|) && |a| == |b|
  {
    if 0 < limit < |a| && |b| == limit {
      assert a[limit - 1] == all[|all| - |a| + limit - 1] && b[limit - 1] == all[|all| - 1];
    }
  }

  // Exactly when both return the same: the limit cuts nothing off what Badger has,
  // and the file storage has as much to return. A negative limit is no limit for
  // the file storage and excludes everything for Badger.
  predicate Agree(file: seq<StatsEntry>, badger: seq<StatsEntry>, limit: int) {
    if limit < 0 then file == [] else (limit == 0 || limit >= |badger|) && |Newest(file, limit)| == |badger|
  }

  lemma AgreeIff(view: seq<StatsEntry>, file: seq<StatsEntry>, badger: seq<StatsEntry>, limit: int)
    requires Increasing(view) && IsSuffix(file, view) && IsSuffix(badger, view)
    ensures Oldest(Truncated(badger), limit) == Truncated(Newest(file, limit)) <==> Agree(file, badger, limit)
  {
    var newest := Newest(file, limit);
    NewestIsSuffix(file, limit);
    SuffixOfSuffix(newest, file, view);
    TruncatedSuffix(newest, view);
    TruncatedSuffix(badger, view);
    TruncatedDiffer(view);
    CutsAgree(Truncated(view), Truncated(badger), Truncated(newest), limit);
  }

  // With the same entries to return, exactly when the limit does not bite.
  lemma AgreeOnSame(kept: seq<StatsEntry>, limit: int)
    ensures Agree(kept, kept, limit) <==> limit == 0 || kept == [] || limit >= |kept|
  {
  }

  const FIRST := Stats(1_000_000, 0, 0, 0, 0, 0, NO_LATENCY, [])
  const SECOND := FIRST.(timestamp := 2_000_000)

  // One such disagreement: after two writes, limit 1 gives the file storage's users the
  // second and Badger's the first.
  lemma LimitOneDisagrees(kind: Kind, hash: string)
    ensures var a, b := StatsEntry(hash, 1_000_000, FIRST), StatsEntry(hash, 2_000_000, SECOND);
            var view := View([WriteOf(kind, hash, FIRST)] + [WriteOf(kind, hash, SECOND)], kind, hash);
            && view == [a, b] && Increasing(view) && KeysAscend(view)
            && Newest(view, 1) == [b] && Oldest(Truncated(view), 1) == [a] && !Agree(view, view, 1)
  {
    var a, b := StatsEntry(hash, 1_000_000, FIRST), StatsEntry(hash, 2_000_000, SECOND);
    ViewOfTwo(kind, hash);
    OneOfTwo(a, b);
    IncreasingKeysAscendIff([a, b]);
  }

  lemma ViewOfTwo(kind: Kind, hash: string)
    ensures View([WriteOf(kind, hash, FIRST)] + [WriteOf(kind, hash, SECOND)], kind, hash) ==
            [StatsEntry(hash, 1_000_000, FIRST), StatsEntry(hash, 2_000_000, SECOND)]
  {
    ViewSnoc([], WriteOf(kind, hash, FIRST), kind, hash);
    assert [] + [WriteOf(kind, hash, FIRST)] == [WriteOf(kind, hash, FIRST)];
    ViewSnoc([WriteOf(kind, hash, FIRST)], WriteOf(kind, hash, SECOND), kind, hash);
  }

  lemma OneOfTwo(a: StatsEntry, b: StatsEntry)
    ensures Newest([a, b], 1) == [b] && Oldest(Truncated([a, b]), 1) == [Truncate(a)] && !Agree([a, b], [a, b], 1)
  {
    TruncatedAt([a, b]);
  }

  ghost predicate AllDecode(entries: seq<StatsEntry>) {
    forall e :: e in entries ==> Decodable(e.stats)
  }

  // Reads both backends after the same operations, whatever the cut-off and the
  // limit and however many writes there were, as long as their milliseconds increase
  // and sort that way.
  method ReadBoth(file: FileStorage, badger: BadgerStorage, kind: Kind, hash: string, limit: int, since: Option<int>)
    returns (f: seq<StatsEntry>, b: seq<StatsEntry>, ok: bool)
    requires file.Valid() && badger.Valid() && file.history == badger.history && IsHash(hash)
    requires Increasing(View(file.history, kind, hash)) && KeysAscend(View(file.history, kind, hash))
    ensures var view := View(file.history, kind, hash);
            var kept, wanted := NotBefore(LastN(view, MAX_ENTRIES), since), NotBefore(view, Rounded(since));
            && f == Newest(kept, limit)
            && ReadOf(Oldest(Truncated(wanted), limit), b, ok)
            && (AllDecode(wanted) ==> ok && (b == Truncated(f) <==> Agree(kept, wanted, limit)))
            // Badger cannot read past an entry that carries errors, as failures do.
            && (limit >= 0 && wanted != [] && !Decodable(wanted[0].stats) ==> !ok && b == [])
  {
    f := file.Get(kind, hash, limit, since);
    b, ok := badger.Get(kind, hash, limit, since);
    BadgerWants(badger.items, badger.history, kind, hash, since);
    ghost var view := View(file.history, kind, hash);
    BothAreSuffixes(view, since);
    AgreeIff(view, NotBefore(LastN(view, MAX_ENTRIES), since), NotBefore(view, Rounded(since)), limit);
    ReadToTheEnd(NotBefore(view, Rounded(since)), limit, b, ok);
  }

  lemma BothAreSuffixes(view: seq<StatsEntry>, since: Option<int>)
    requires Increasing(view)
    ensures IsSuffix(NotBefore(LastN(view, MAX_ENTRIES), since), view)
    ensures IsSuffix(NotBefore(view, Rounded(since)), view)
  {
    var held := LastN(view, MAX_ENTRIES);
    IncreasingIsChronological(view);
    LastNIsSuffix(view, MAX_ENTRIES);
    ChronologicalSuffix(held, view);
    NotBeforeIsSuffix(held, since);
    SuffixOfSuffix(NotBefore(held, since), held, view);
    NotBeforeIsSuffix(view, Rounded(since));
  }

  lemma OldestOfTruncated(wanted: seq<StatsEntry>, limit: int)
    ensures var r := Oldest(Truncated(wanted), limit);
            && |r| <= |wanted| && (limit >= 0 && wanted != [] ==> r != [])
            && forall i :: 0 <= i < |r| ==> r[i].stats == wanted[i].stats
  {
    TruncatedAt(wanted);
  }

  lemma ReadToTheEnd(wanted: seq<StatsEntry>, limit: int, b: seq<StatsEntry>, ok: bool)
    requires ReadOf(Oldest(Truncated(wanted), limit), b, ok)
    ensures AllDecode(wanted) ==> ok && b == Oldest(Truncated(wanted), limit)
    ensures limit >= 0 && wanted != [] && !Decodable(wanted[0].stats) ==> !ok && b == []
  {
    var r := Oldest(Truncated(wanted), limit);
    OldestOfTruncated(wanted, limit);
    assert b != [] ==> b[0] == r[0];
    assert |b| < |r| ==> wanted[|b|] in wanted;
  }
}
