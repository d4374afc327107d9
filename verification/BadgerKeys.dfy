// The keys of the Badger storage: their printed form, their parts, their
// prefixes and their order.
module BadgerKeys {
  import opened Sequences
  import opened Decimal
  import opened StatsModel

  const NANOS_PER_MILLI := 1_000_000

  // Time.UnixMilli, which rounds down.
  function Millis(nanos: int): int {
    nanos / NANOS_PER_MILLI
  }

  function KindName(kind: Kind): string {
    if kind.StatsKind? then "stats" else "failure"
  }

  // What is searched for when there is no hash.
  function KindPrefix(kind: Kind): string {
    KindName(kind) + [':']
  }

  // The text of a SHA-256 is hexadecimal.
  predicate IsHash(hash: string) {
    hash != "" && ':' !in hash
  }

  function Prefix(kind: Kind, hash: string): string {
    KindName(kind) + [':'] + (hash + [':'])
  }

  function Key(kind: Kind, hash: string, millis: int): string {
    Prefix(kind, hash) + PrintInt(millis)
  }

  // strings.Split with a one-character separator.
  function Split(s: string, sep: char): (parts: seq<string>)
    ensures parts != []
  {
    if s == [] then [[]] else
    var rest := Split(s[1..], sep);
    if s[0] == sep then [[]] + rest else [[s[0]] + rest[0]] + rest[1..]
  }

  lemma {:induction false} SplitFirst(x: string, rest: string, sep: char)
    requires sep !in x
    ensures Split(x, sep) == [x]
    ensures Split(x + [sep] + rest, sep) == [x] + Split(rest, sep)
  {
    if x == [] {
      assert x + [sep] + rest == [sep] + rest;
      assert ([sep] + rest)[1..] == rest;
    } else {
      SplitFirst(x[1..], rest, sep);
      assert (x + [sep] + rest)[1..] == x[1..] + [sep] + rest;
      assert x == [x[0]] + x[1..];
    }
  }

  lemma SplitThree(x: string, y: string, z: string, sep: char)
    requires sep !in x && sep !in y && sep !in z
    ensures Split(x + [sep] + (y + [sep] + z), sep) == [x, y, z]
  {
    SplitFirst(z, [], sep);
    SplitFirst(y, z, sep);
    SplitFirst(x, y + [sep] + z, sep);
  }

  lemma NamesAreDistinct()
    ensures KindName(StatsKind) != KindName(FailureKind)
    ensures forall k :: ':' !in KindName(k)
  {
    assert |"stats"| != |"failure"|;
  }

  lemma KeyFields(kind: Kind, hash: string, millis: int)
    ensures Key(kind, hash, millis) == KindName(kind) + [':'] + (hash + [':'] + PrintInt(millis))
  {
  }

  // Splitting a key at its colons gives back what it was printed from.
  lemma KeyRoundTrip(kind: Kind, hash: string, millis: int)
    requires ':' !in hash && IsInt64(millis)
    ensures var parts := Split(Key(kind, hash, millis), ':');
            parts == [KindName(kind), hash, PrintInt(millis)] && ParseInt(parts[2]) == Some(millis)
  {
    NamesAreDistinct();
    PrintIntAvoids(millis, ':');
    ParsePrintInt(millis);
    KeyFields(kind, hash, millis);
    SplitThree(KindName(kind), hash, PrintInt(millis), ':');
  }

  lemma KeyIsInjective(k: Kind, h: string, m: int, k': Kind, h': string, m': int)
    requires ':' !in h && ':' !in h' && IsInt64(m) && IsInt64(m')
    requires Key(k, h, m) == Key(k', h', m')
    ensures k == k' && h == h' && m == m'
  {
    NamesAreDistinct();
    KeyRoundTrip(k, h, m);
    KeyRoundTrip(k', h', m');
  }

  // The position of the first c, or the length.
  function IndexOf(s: string, c: char): nat {
    if s == [] || s[0] == c then 0 else 1 + IndexOf(s[1..], c)
  }

  lemma {:induction false} IndexOfField(x: string, rest: string, c: char)
    requires c !in x
    ensures IndexOf(x + [c] + rest, c) == |x|
  {
    if x == [] {
    } else {
      IndexOfField(x[1..], rest, c);
      assert (x + [c] + rest)[1..] == x[1..] + [c] + rest;
    }
  }

  lemma {:induction false} IndexOfPrefix(a: string, b: string, c: char)
    requires a <= b && c in a
    ensures IndexOf(a, c) == IndexOf(b, c)
  {
    if a[0] != c {
      IndexOfPrefix(a[1..], b[1..], c);
    }
  }

  lemma FieldOfPrefix(x: string, rest: string, x': string, rest': string)
    requires ':' !in x && ':' !in x'
    requires x + [':'] + rest <= x' + [':'] + rest'
    ensures x == x' && rest <= rest'
  {
    var a, b := x + [':'] + rest, x' + [':'] + rest';
    assert a[|x|] == ':';
    IndexOfField(x, rest, ':');
    IndexOfField(x', rest', ':');
    IndexOfPrefix(a, b, ':');
    assert x == a[..|x|] && x' == b[..|x|];
    assert rest == a[|x| + 1..] && rest' == b[|x| + 1..];
  }

  // A scan for one kind and hash meets no key of another.
  lemma PrefixSelects(kind: Kind, hash: string, k: Kind, h: string, millis: int)
    requires ':' !in hash && ':' !in h
    ensures Prefix(kind, hash) <= Key(k, h, millis) <==> kind == k && hash == h
  {
    NamesAreDistinct();
    if Prefix(kind, hash) <= Key(k, h, millis) {
      KeyFields(k, h, millis);
      FieldOfPrefix(KindName(kind), hash + [':'], KindName(k), h + [':'] + PrintInt(millis));
      assert hash + [':'] == hash + [':'] + [];
      FieldOfPrefix(hash, [], h, PrintInt(millis));
    }
  }

  // A scan without a hash meets all keys of the kind.
  lemma KindPrefixSelects(kind: Kind, k: Kind, h: string, millis: int)
    ensures KindPrefix(kind) <= Key(k, h, millis) <==> kind == k
  {
    NamesAreDistinct();
    KeyFields(k, h, millis);
    if KindPrefix(kind) <= Key(k, h, millis) {
      assert KindPrefix(kind) == KindName(kind) + [':'] + [];
      FieldOfPrefix(KindName(kind), [], KindName(k), h + [':'] + PrintInt(millis));
    }
  }

  lemma {:induction false} LexCommonPrefix(p: string, a: string, b: string)
    ensures LexLess(p + a, p + b) <==> LexLess(a, b)
  {
    if p == [] {
      assert p + a == a && p + b == b;
    } else {
      LexCommonPrefix(p[1..], a, b);
      assert (p + a)[1..] == p[1..] + a && (p + b)[1..] == p[1..] + b;
    }
  }

  // Within one hash, key order is time order as long as the width stays the same.
  lemma KeyOrder(kind: Kind, hash: string, m: nat, n: nat)
    requires Width(m) == Width(n)
    ensures LexLess(Key(kind, hash, m), Key(kind, hash, n)) <==> m < n
  {
    LexCommonPrefix(Prefix(kind, hash), PrintInt(m), PrintInt(n));
    EqualWidthOrder(m, n);
  }

  // --- Prefixes and order ---

  lemma {:induction false} PrefixIsNotAbove(p: string, k: string)
    requires p <= k
    ensures !LexLess(k, p)
  {
    if p == [] {
    } else {
      PrefixIsNotAbove(p[1..], k[1..]);
    }
  }

  // Keys with a common prefix are neighbours, starting where the prefix sorts.
  lemma {:induction false} PrefixIsConvex(p: string, b: string, c: string)
    requires !LexLess(b, p) && LexLess(b, c) && p <= c
    ensures p <= b
  {
    if p == [] {
    } else {
      assert c[0] == p[0];
      assert b != [] && b[0] == p[0];
      PrefixIsConvex(p[1..], b[1..], c[1..]);
      assert b == [b[0]] + b[1..] && p == [p[0]] + p[1..];
    }
  }

  lemma {:induction false} LexTransitive(a: string, b: string, c: string)
    requires LexLess(a, b) && LexLess(b, c)
    ensures LexLess(a, c)
  {
    if a != [] && a[0] == b[0] == c[0] {
      LexTransitive(a[1..], b[1..], c[1..]);
    }
  }
}
