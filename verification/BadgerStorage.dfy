// The Badger storage over an ordered key-value map. Expiry and garbage
// collection of the database are not part of this model.
module BadgerStore {
  import opened Sequences
  import opened Decimal
  import opened StatsModel
  import opened BadgerKeys

  datatype Item = Item(key: string, value: Stats)

  // --- The ordered map ---

  predicate Sorted(items: seq<Item>) {
    forall i, j :: 0 <= i < j < |items| ==> LexLess(items[i].key, items[j].key)
  }

  function Put(items: seq<Item>, key: string, value: Stats): seq<Item> {
    if items == [] || LexLess(key, items[0].key) then [Item(key, value)] + items
    else if key == items[0].key then [Item(key, value)] + items[1..]
    else [items[0]] + Put(items[1..], key, value)
  }

  lemma BelowAll(items: seq<Item>, key: string)
    requires Sorted(items) && (items != [] ==> LexLess(key, items[0].key))
    ensures forall j :: 0 <= j < |items| ==> LexLess(key, items[j].key) && items[j].key != key
  {
    forall j | 0 <= j < |items| ensures LexLess(key, items[j].key) && items[j].key != key {
      if j > 0 {
        LexTransitive(key, items[0].key, items[j].key);
      }
      LexAsymmetric(key, items[j].key);
    }
  }

  lemma {:induction false} PutMembers(items: seq<Item>, key: string, value: Stats)
    requires Sorted(items)
    ensures forall it :: it in Put(items, key, value) <==> it == Item(key, value) || (it in items && it.key != key)
  {
    if items == [] {
    } else if LexLess(key, items[0].key) {
      BelowAll(items, key);
    } else {
      assert items == [items[0]] + items[1..];
      BelowAll(items[1..], items[0].key);
      if key != items[0].key {
        PutMembers(items[1..], key, value);
      }
    }
  }

  lemma {:induction false} PutSorts(items: seq<Item>, key: string, value: Stats)
    requires Sorted(items)
    ensures Sorted(Put(items, key, value))
  {
    if items == [] {
    } else if LexLess(key, items[0].key) {
      BelowAll(items, key);
    } else if key != items[0].key {
      var rest := Put(items[1..], key, value);
      LexAsymmetric(key, items[0].key);
      BelowAll(items[1..], items[0].key);
      PutSorts(items[1..], key, value);
      PutMembers(items[1..], key, value);
      forall j | 0 <= j < |rest| ensures LexLess(items[0].key, rest[j].key) {
        assert rest[j] in rest;
      }
    }
  }

  // The value is in the map under the key.
  predicate Holds(items: seq<Item>, key: string, value: Stats) {
    Item(key, value) in items
  }

  // --- What has been written under a key ---

  function KeyOf(op: Op): string
    requires op.Write?
  {
    Key(op.kind, op.entry.configHash, Millis(op.entry.timestamp))
  }

  // The hash printed into keys is hexadecimal text.
  predicate Printable(op: Op) {
    op.Write? ==>
      && ':' !in op.entry.configHash && IsInt64(Millis(op.entry.timestamp))
      && op.entry.timestamp == op.entry.stats.timestamp
  }

  predicate AllPrintable(ops: seq<Op>) {
    forall i :: 0 <= i < |ops| ==> Printable(ops[i])
  }

  // The last value written under the key since the last Clear.
  function LastWrite(ops: seq<Op>, key: string): Option<Stats> {
    if ops == [] || Last(ops).Clear? then None
    else if KeyOf(Last(ops)) == key then Some(Last(ops).entry.stats)
    else LastWrite(ops[..|ops| - 1], key)
  }

  // --- Reading ---

  function HavingPrefix(items: seq<Item>, prefix: string): seq<Item> {
    if items == [] then [] else
    var before := HavingPrefix(items[..|items| - 1], prefix);
    if prefix <= Last(items).key then before + [Last(items)] else before
  }

  // The entry a key and its value stand for; None if the key does not parse.
  function EntryOf(item: Item): (e: Option<StatsEntry>)
    ensures e.Some? ==> e.value.stats == item.value
  {
    var parts := Split(item.key, ':');
    if |parts| < 3 then None else
    var millis := ParseInt(parts[2]);
    if millis.None? then None else Some(StatsEntry(parts[1], millis.value * NANOS_PER_MILLI, item.value))
  }

  // The entry an item is returned as; None if it is skipped.
  function Shown(item: Item, since: Option<int>): Option<StatsEntry> {
    var e := EntryOf(item);
    if e.Some? && since.Some? && e.value.timestamp < since.value then None else e
  }

  function ShownSince(since: Option<int>): Item -> Option<StatsEntry> {
    item => Shown(item, since)
  }

  function Visible(items: seq<Item>, since: Option<int>): seq<StatsEntry> {
    Selected(items, ShownSince(since))
  }

  // Zero is no limit; a negative one admits nothing.
  function Oldest(entries: seq<StatsEntry>, limit: int): seq<StatsEntry> {
    if limit == 0 || limit > |entries| then entries else if limit < 0 then [] else entries[..limit]
  }

  // r is what is read of wanted: all of it, or what precedes the first entry that
  // does not decode, and then an error.
  ghost predicate ReadOf(wanted: seq<StatsEntry>, r: seq<StatsEntry>, ok: bool) {
    && r <= wanted
    && (forall i :: 0 <= i < |r| ==> Decodable(r[i].stats))
    && (ok <==> r == wanted)
    && (!ok ==> |r| < |wanted| && !Decodable(wanted[|r|].stats))
  }

  lemma {:induction false} HavingPrefixAppend(a: seq<Item>, b: seq<Item>, prefix: string)
    ensures HavingPrefix(a + b, prefix) == HavingPrefix(a, prefix) + HavingPrefix(b, prefix)
  {
    if b == [] {
      assert a + b == a;
    } else {
      HavingPrefixAppend(a, b[..|b| - 1], prefix);
      assert (a + b)[..|a + b| - 1] == a + b[..|b| - 1] && Last(a + b) == Last(b);
    }
  }

  lemma {:induction false} HavingPrefixAllOrNone(items: seq<Item>, prefix: string)
    ensures (forall i :: 0 <= i < |items| ==> prefix <= items[i].key) ==> HavingPrefix(items, prefix) == items
    ensures (forall i :: 0 <= i < |items| ==> !(prefix <= items[i].key)) ==> HavingPrefix(items, prefix) == []
  {
    if items == [] {
    } else {
      HavingPrefixAllOrNone(items[..|items| - 1], prefix);
      assert items == items[..|items| - 1] + [Last(items)];
    }
  }

  // start is where the iterator stands after seeking the prefix.
  ghost predicate SeekAt(items: seq<Item>, prefix: string, start: nat) {
    && start <= |items|
    && (forall i :: 0 <= i < start ==> LexLess(items[i].key, prefix))
    && (start < |items| ==> !LexLess(items[start].key, prefix))
  }

  ghost predicate AllHave(items: seq<Item>, prefix: string, start: nat, end: nat)
    requires start <= end <= |items|
  {
    forall i :: start <= i < end ==> prefix <= items[i].key
  }

  lemma NothingBefore(items: seq<Item>, prefix: string, start: nat)
    requires SeekAt(items, prefix, start)
    ensures HavingPrefix(items[..start], prefix) == []
  {
    forall i | 0 <= i < start ensures !(prefix <= items[i].key) {
      if prefix <= items[i].key {
        PrefixIsNotAbove(prefix, items[i].key);
      }
    }
    HavingPrefixAllOrNone(items[..start], prefix);
  }

  lemma NothingAfter(items: seq<Item>, prefix: string, start: nat, end: nat)
    requires Sorted(items) && SeekAt(items, prefix, start) && start <= end <= |items|
    requires end < |items| ==> !(prefix <= items[end].key)
    ensures HavingPrefix(items[end..], prefix) == []
  {
    forall i | end <= i < |items| ensures !(prefix <= items[i].key) {
      if start < end && LexLess(items[end].key, prefix) {
        LexTransitive(items[start].key, items[end].key, prefix);
      }
      if end < i && prefix <= items[i].key {
        PrefixIsConvex(prefix, items[end].key, items[i].key);
      }
    }
    HavingPrefixAllOrNone(items[end..], prefix);
  }

  lemma AllWithin(items: seq<Item>, prefix: string, start: nat, end: nat)
    requires start <= end <= |items| && AllHave(items, prefix, start, end)
    ensures HavingPrefix(items[start..end], prefix) == items[start..end]
  {
    HavingPrefixAllOrNone(items[start..end], prefix);
  }

  lemma ThreeSlices(items: seq<Item>, start: nat, end: nat)
    requires start <= end <= |items|
    ensures items == items[..start] + items[start..end] + items[end..]
  {
  }

  lemma MiddlePart(a: seq<Item>, b: seq<Item>, c: seq<Item>, prefix: string)
    requires HavingPrefix(a, prefix) == [] && HavingPrefix(b, prefix) == b && HavingPrefix(c, prefix) == []
    ensures HavingPrefix(a + b + c, prefix) == b
  {
    HavingPrefixAppend(a, b, prefix);
    HavingPrefixAppend(a + b, c, prefix);
  }

  // Seeking the prefix and going on while it matches meets all keys that have it.
  lemma ScanFindsAll(items: seq<Item>, prefix: string, start: nat, end: nat)
    requires Sorted(items) && SeekAt(items, prefix, start) && start <= end <= |items|
    requires AllHave(items, prefix, start, end)
    requires end < |items| ==> !(prefix <= items[end].key)
    ensures HavingPrefix(items, prefix) == items[start..end]
  {
    NothingBefore(items, prefix, start);
    NothingAfter(items, prefix, start, end);
    AllWithin(items, prefix, start, end);
    MiddlePart(items[..start], items[start..end], items[end..], prefix);
    ThreeSlices(items, start, end);
  }

  // The map holds under every key the last value written there.
  ghost predicate Mirrors(items: seq<Item>, ops: seq<Op>) {
    && Sorted(items)
    && forall key, value :: Holds(items, key, value) <==> LastWrite(ops, key) == Some(value)
  }

  lemma WriteMirrored(items: seq<Item>, ops: seq<Op>, op: Op)
    requires Mirrors(items, ops) && op.Write?
    ensures Mirrors(Put(items, KeyOf(op), op.entry.stats), ops + [op])
  {
    PutSorts(items, KeyOf(op), op.entry.stats);
    PutMembers(items, KeyOf(op), op.entry.stats);
    assert (ops + [op])[..|ops|] == ops;
    forall key, value
      ensures Holds(Put(items, KeyOf(op), op.entry.stats), key, value) <==> LastWrite(ops + [op], key) == Some(value)
    {
      assert Holds(items, key, value) <==> LastWrite(ops, key) == Some(value);
    }
  }

  class BadgerStorage {
    var items: seq<Item>
    ghost var history: seq<Op>

    ghost predicate Valid()
      reads this
    {
      Mirrors(items, history) && AllPrintable(history)
    }

    constructor ()
      ensures Valid() && history == []
    {
      items, history := [], [];
    }

    // WriteStats and WriteFailure, which differ in the key's first field.
    method Write(kind: Kind, hash: string, stats: Stats, updateFails: bool) returns (ok: bool)
      requires Valid() && Printable(WriteOf(kind, hash, stats))
      modifies this
      ensures Valid() && ok == !updateFails
      ensures history == if ok then old(history) + [WriteOf(kind, hash, stats)] else old(history)
    {
      if updateFails {
        return false;
      }
      var key := Key(kind, hash, Millis(stats.timestamp));
      WriteMirrored(items, history, WriteOf(kind, hash, stats));
      items := Put(items, key, stats);
      history := history + [WriteOf(kind, hash, stats)];
      return true;
    }

    // A failing DropAll is taken to drop nothing.
    method Clear(dropFails: bool) returns (ok: bool)
      requires Valid()
      modifies this
      ensures Valid() && ok == !dropFails
      ensures history == if ok then old(history) + [Op.Clear] else old(history)
      ensures ok ==> items == []
    {
      if dropFails {
        return false;
      }
      items, history := [], history + [Op.Clear];
      return true;
    }

    // GetStats and GetFailures.
    method Get(kind: Kind, hash: string, limit: int, since: Option<int>) returns (r: seq<StatsEntry>, ok: bool)
      requires Valid()
      ensures var prefix := if hash == "" then KindPrefix(kind) else Prefix(kind, hash);
              && ReadOf(Oldest(Visible(HavingPrefix(items, prefix), since), limit), r, ok)
              && FirstOf(Visible(HavingPrefix(items, prefix), since), limit, r, ok)
    {
      var prefix := KindPrefix(kind);
      if hash != "" {
        prefix := Prefix(kind, hash);
      }
      r, ok := Scan(items, prefix, limit, since);
      FirstAreRead(Visible(HavingPrefix(items, prefix), since), limit, r, ok);
    }
  }

  // r is the first limit of all, or all if there are no more or the limit is 0, and
  // nothing for a negative limit; or what comes before the first that does not decode.
  ghost predicate FirstOf(all: seq<StatsEntry>, limit: int, r: seq<StatsEntry>, ok: bool) {
    && r <= all
    && (ok ==> |r| == if limit < 0 then 0 else if 0 < limit < |all| then limit else |all|)
    && (!ok ==> |r| < |all| && !Decodable(all[|r|].stats) && (limit == 0 || |r| < limit))
  }

  lemma FirstAreRead(all: seq<StatsEntry>, limit: int, r: seq<StatsEntry>, ok: bool)
    requires ReadOf(Oldest(all, limit), r, ok)
    ensures FirstOf(all, limit, r, ok)
  {
  }

  // The iterator loop of a read, over the transaction's view of the map.
  method Scan(items: seq<Item>, prefix: string, limit: int, since: Option<int>) returns (r: seq<StatsEntry>, ok: bool)
    requires Sorted(items)
    ensures ReadOf(Oldest(Visible(HavingPrefix(items, prefix), since), limit), r, ok)
  {
    var start := Seek(items, prefix);
    r := [];
    var i, count := start, 0;
    while i < |items| && prefix <= items[i].key && (limit == 0 || count < limit)
      invariant start <= i <= |items| && count == |r|
      invariant Scanned(items, prefix, start, i, since, limit, r)
    {
      ScanNext(items, prefix, start, i, since, limit, r);
      var e := Show(items[i], since);
      if e.None? {
        i := i + 1;
        continue;
      }
      if !Decodable(e.value.stats) {
        StopsAtUndecodable(items, prefix, start, i, since, limit, r);
        return r, false;
      }
      r := r + [e.value];
      count := count + 1;
      i := i + 1;
    }
    ReadsAll(items, prefix, start, i, since, limit, r);
    return r, true;
  }

  method Seek(items: seq<Item>, prefix: string) returns (start: nat)
    ensures SeekAt(items, prefix, start)
  {
    start := 0;
    while start < |items| && LexLess(items[start].key, prefix)
      invariant start <= |items|
      invariant forall i :: 0 <= i < start ==> LexLess(items[i].key, prefix)
    {
      start := start + 1;
    }
  }

  // The entry of one item, unless its key does not parse or it is too old.
  method Show(item: Item, since: Option<int>) returns (e: Option<StatsEntry>)
    ensures e == Shown(item, since)
  {
    var parts := Split(item.key, ':');
    if |parts| < 3 {
      return None;
    }
    var configHash, unixMilli := parts[1], ParseInt(parts[2]);
    if unixMilli.None? {
      return None;
    }
    var timestamp := unixMilli.value * NANOS_PER_MILLI;
    if since.Some? && timestamp < since.value {
      return None;
    }
    return Some(StatsEntry(configHash, timestamp, item.value));
  }

  // r is what the scan has read when it stands at i.
  ghost predicate Scanned(items: seq<Item>, prefix: string, start: nat, i: nat, since: Option<int>, limit: int,
                          r: seq<StatsEntry>)
    requires start <= i <= |items|
  {
    && SeekAt(items, prefix, start) && AllHave(items, prefix, start, i)
    && r == Visible(items[start..i], since)
    && (forall j :: 0 <= j < |r| ==> Decodable(r[j].stats))
    && (limit > 0 ==> |r| <= limit) && (limit < 0 ==> i == start)
  }

  lemma ScanNext(items: seq<Item>, prefix: string, start: nat, i: nat, since: Option<int>, limit: int,
                 r: seq<StatsEntry>)
    requires start <= i < |items| && Scanned(items, prefix, start, i, since, limit, r)
    requires prefix <= items[i].key && (limit == 0 || |r| < limit)
    ensures var e := Shown(items[i], since);
            if e.None? then Scanned(items, prefix, start, i + 1, since, limit, r)
            else Decodable(e.value.stats) ==> Scanned(items, prefix, start, i + 1, since, limit, r + [e.value])
  {
    VisibleNext(items, start, i, since);
    ScannedNext(items, prefix, start, i, since, limit, r, Shown(items[i], since));
  }

  lemma ScannedNext(items: seq<Item>, prefix: string, start: nat, i: nat, since: Option<int>, limit: int,
                    r: seq<StatsEntry>, e: Option<StatsEntry>)
    requires start <= i < |items| && Scanned(items, prefix, start, i, since, limit, r)
    requires prefix <= items[i].key && (limit == 0 || |r| < limit)
    requires Visible(items[start..i + 1], since) == if e.None? then r else r + [e.value]
    ensures if e.None? then Scanned(items, prefix, start, i + 1, since, limit, r)
            else Decodable(e.value.stats) ==> Scanned(items, prefix, start, i + 1, since, limit, r + [e.value])
  {
  }

  lemma VisibleNext(items: seq<Item>, start: nat, i: nat, since: Option<int>)
    requires start <= i < |items|
    ensures var e := Shown(items[i], since);
            Visible(items[start..i + 1], since) ==
            if e.None? then Visible(items[start..i], since) else Visible(items[start..i], since) + [e.value]
  {
    assert items[start..i + 1] == items[start..i] + [items[i]];
    SelectedSnoc(items[start..i], items[i], ShownSince(since));
  }

  // The position where the keys with the prefix end, from a position inside.
  lemma EndOfScan(items: seq<Item>, prefix: string, i: nat) returns (end: nat)
    requires i <= |items|
    ensures i <= end <= |items| && AllHave(items, prefix, i, end)
    ensures end < |items| ==> !(prefix <= items[end].key)
  {
    end := i;
    while end < |items| && prefix <= items[end].key
      invariant i <= end <= |items| && AllHave(items, prefix, i, end)
    {
      end := end + 1;
    }
  }

  lemma JoinHave(items: seq<Item>, prefix: string, start: nat, i: nat, end: nat)
    requires start <= i <= end <= |items| && AllHave(items, prefix, start, i) && AllHave(items, prefix, i, end)
    ensures AllHave(items, prefix, start, end)
  {
  }

  // Where the scan stands, all it will see is what it has seen and the rest.
  lemma KeysSplit(items: seq<Item>, prefix: string, start: nat, i: nat) returns (rest: seq<Item>)
    requires start <= i <= |items| && Sorted(items) && SeekAt(items, prefix, start) && AllHave(items, prefix, start, i)
    ensures HavingPrefix(items, prefix) == items[start..i] + rest
    ensures if i < |items| && prefix <= items[i].key then rest != [] && rest[0] == items[i] else rest == []
  {
    var end := EndOfScan(items, prefix, i);
    JoinHave(items, prefix, start, i, end);
    ScanFindsAll(items, prefix, start, end);
    rest := items[i..end];
    assert items[start..end] == items[start..i] + rest;
  }

  lemma ScanSplits(items: seq<Item>, prefix: string, start: nat, i: nat, since: Option<int>) returns (rest: seq<Item>)
    requires start <= i <= |items| && Sorted(items) && SeekAt(items, prefix, start) && AllHave(items, prefix, start, i)
    ensures Visible(HavingPrefix(items, prefix), since) == Visible(items[start..i], since) + Visible(rest, since)
    ensures if i < |items| && prefix <= items[i].key then rest != [] && rest[0] == items[i] else rest == []
  {
    rest := KeysSplit(items, prefix, start, i);
    SelectedAppend(items[start..i], rest, ShownSince(since));
  }

  lemma ReadsAll(items: seq<Item>, prefix: string, start: nat, i: nat, since: Option<int>, limit: int,
                 r: seq<StatsEntry>)
    requires Sorted(items) && start <= i <= |items| && Scanned(items, prefix, start, i, since, limit, r)
    requires i == |items| || !(prefix <= items[i].key) || (limit != 0 && |r| >= limit)
    ensures ReadOf(Oldest(Visible(HavingPrefix(items, prefix), since), limit), r, true)
  {
    var _ := ScanSplits(items, prefix, start, i, since);
    assert limit < 0 ==> items[start..i] == [];
  }

  lemma StopsAtUndecodable(items: seq<Item>, prefix: string, start: nat, i: nat, since: Option<int>, limit: int,
                           r: seq<StatsEntry>)
    requires Sorted(items) && start <= i < |items| && Scanned(items, prefix, start, i, since, limit, r)
    requires prefix <= items[i].key && (limit == 0 || |r| < limit)
    requires Shown(items[i], since).Some? && !Decodable(Shown(items[i], since).value.stats)
    ensures ReadOf(Oldest(Visible(HavingPrefix(items, prefix), since), limit), r, false)
  {
    var rest := ScanSplits(items, prefix, start, i, since);
    SelectedFirst(rest, ShownSince(since));
    ErrorAfter(r, Shown(items[i], since).value, Visible(rest[1..], since), limit);
  }

  lemma ErrorAfter(r: seq<StatsEntry>, e: StatsEntry, more: seq<StatsEntry>, limit: int)
    requires (limit == 0 || |r| < limit) && !Decodable(e.stats) && forall i :: 0 <= i < |r| ==> Decodable(r[i].stats)
    ensures ReadOf(Oldest(r + ([e] + more), limit), r, false)
  {
    var all := r + ([e] + more);
    assert all[|r|] == e;
  }
}
