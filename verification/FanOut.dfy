// Which publishers and consumers a load test specification creates, and when
// their names are all different.
module FanOut {
  import opened Decimal
  import opened BadgerKeys
  import opened LoadTestSpecs
  import opened Naming

  // One publisher or consumer: of which entry of the stream list, its stream and
  // copy counted from 1, its subject from 0.
  datatype Place = Place(entry: nat, stream: nat, subject: nat, copy: nat)

  predicate Matches(s: StreamSpec, prefix: string) {
    s.namePrefix == prefix
  }

  function AtLeastZero(n: int): nat {
    if n < 0 then 0 else n
  }

  // --- The places, in the order of the loops ---

  // part(0) to part(n - 1), one after the other.
  function Concat<T>(n: nat, part: nat -> seq<T>): seq<T> {
    if n == 0 then [] else Concat(n - 1, part) + part(n - 1)
  }

  function CopyAt(entry: nat, stream: nat, subject: nat): nat -> seq<Place> {
    (i: nat) => [Place(entry, stream, subject, i + 1)]
  }

  function Copies(entry: nat, stream: nat, subject: nat, n: nat): seq<Place> {
    Concat(n, CopyAt(entry, stream, subject))
  }

  function SubjectAt(entry: nat, stream: nat, copies: nat): nat -> seq<Place> {
    (i: nat) => Copies(entry, stream, i, copies)
  }

  function OfStream(entry: nat, stream: nat, subjects: nat, copies: nat): seq<Place> {
    Concat(subjects, SubjectAt(entry, stream, copies))
  }

  function StreamAt(entry: nat, subjects: nat, copies: nat): nat -> seq<Place> {
    (i: nat) => OfStream(entry, i + 1, subjects, copies)
  }

  function OfEntry(entry: nat, streams: nat, subjects: nat, copies: nat): seq<Place> {
    Concat(streams, StreamAt(entry, subjects, copies))
  }

  function Places(streams: seq<StreamSpec>, prefix: string, copies: nat): seq<Place> {
    if streams == [] then [] else
    var n := |streams| - 1;
    var before := Places(streams[..n], prefix, copies);
    if Matches(streams[n], prefix)
    then before + OfEntry(n, AtLeastZero(streams[n].count), |streams[n].subjects|, copies)
    else before
  }

  function Members(streams: seq<StreamSpec>, prefix: string, copies: nat): nat {
    if streams == [] then 0 else
    var n := |streams| - 1;
    Members(streams[..n], prefix, copies)
    + if Matches(streams[n], prefix) then AtLeastZero(streams[n].count) * (|streams[n].subjects| * copies) else 0
  }

  // --- What is a place, and how many there are ---

  lemma {:induction false} InConcat<T>(x: T, n: nat, part: nat -> seq<T>)
    ensures x in Concat(n, part) <==> exists i: nat :: i < n && x in part(i)
  {
    if n == 0 {
    } else {
      InConcat(x, n - 1, part);
    }
  }

  lemma InCopies(p: Place, entry: nat, stream: nat, subject: nat, n: nat)
    ensures p in Copies(entry, stream, subject, n) <==>
              p.entry == entry && p.stream == stream && p.subject == subject && 1 <= p.copy <= n
  {
    var part := CopyAt(entry, stream, subject);
    InConcat(p, n, part);
    if p.copy >= 1 {
      assert part(p.copy - 1) == [Place(entry, stream, subject, p.copy)];
    }
  }

  lemma InOfStream(p: Place, entry: nat, stream: nat, subjects: nat, copies: nat)
    ensures p in OfStream(entry, stream, subjects, copies) <==>
              p.entry == entry && p.stream == stream && p.subject < subjects && 1 <= p.copy <= copies
  {
    var part := SubjectAt(entry, stream, copies);
    InConcat(p, subjects, part);
    forall i: nat | i < subjects ensures p in part(i) <==>
      p.entry == entry && p.stream == stream && p.subject == i && 1 <= p.copy <= copies
    {
      InCopies(p, entry, stream, i, copies);
    }
    if p.subject < subjects {
      assert p in part(p.subject) <==> p.entry == entry && p.stream == stream && 1 <= p.copy <= copies;
    }
  }

  lemma InOfEntry(p: Place, entry: nat, streams: nat, subjects: nat, copies: nat)
    ensures p in OfEntry(entry, streams, subjects, copies) <==>
              p.entry == entry && 1 <= p.stream <= streams && p.subject < subjects && 1 <= p.copy <= copies
  {
    var part := StreamAt(entry, subjects, copies);
    InConcat(p, streams, part);
    forall i: nat | i < streams ensures p in part(i) <==>
      p.entry == entry && p.stream == i + 1 && p.subject < subjects && 1 <= p.copy <= copies
    {
      InOfStream(p, entry, i + 1, subjects, copies);
    }
    if 1 <= p.stream <= streams {
      assert p in part(p.stream - 1) <==> p.entry == entry && p.subject < subjects && 1 <= p.copy <= copies;
    }
  }

  lemma OneMore(n: nat, k: nat)
    requires n > 0
    ensures n * k == (n - 1) * k + k
  {
  }

  lemma {:induction false} ConcatCount<T>(n: nat, part: nat -> seq<T>, size: nat)
    requires forall i: nat :: i < n ==> |part(i)| == size
    ensures |Concat(n, part)| == n * size
  {
    if n == 0 {
    } else {
      ConcatCount(n - 1, part, size);
      OneMore(n, size);
    }
  }

  lemma CopiesCount(entry: nat, stream: nat, subject: nat, n: nat)
    ensures |Copies(entry, stream, subject, n)| == n
  {
    ConcatCount(n, CopyAt(entry, stream, subject), 1);
  }

  lemma OfStreamCount(entry: nat, stream: nat, subjects: nat, copies: nat)
    ensures |OfStream(entry, stream, subjects, copies)| == subjects * copies
  {
    var part := SubjectAt(entry, stream, copies);
    forall i: nat | i < subjects ensures |part(i)| == copies {
      CopiesCount(entry, stream, i, copies);
    }
    ConcatCount(subjects, part, copies);
  }

  lemma OfEntryCount(entry: nat, streams: nat, subjects: nat, copies: nat)
    ensures |OfEntry(entry, streams, subjects, copies)| == streams * (subjects * copies)
  {
    var part := StreamAt(entry, subjects, copies);
    forall i: nat | i < streams ensures |part(i)| == subjects * copies {
      OfStreamCount(entry, i + 1, subjects, copies);
    }
    ConcatCount(streams, part, subjects * copies);
  }

  // There is a member for every stream of a matching entry, each of its subjects
  // and each copy, and no other.
  lemma {:induction false} InPlaces(p: Place, streams: seq<StreamSpec>, prefix: string, copies: nat)
    ensures p in Places(streams, prefix, copies) <==>
            && p.entry < |streams| && streams[p.entry].namePrefix == prefix
            && 1 <= p.stream <= streams[p.entry].count && p.subject < |streams[p.entry].subjects|
            && 1 <= p.copy <= copies
  {
    if streams == [] {
    } else {
      var n := |streams| - 1;
      InPlaces(p, streams[..n], prefix, copies);
      InOfEntry(p, n, AtLeastZero(streams[n].count), |streams[n].subjects|, copies);
    }
  }

  lemma {:induction false} PlacesCount(streams: seq<StreamSpec>, prefix: string, copies: nat)
    ensures |Places(streams, prefix, copies)| == Members(streams, prefix, copies)
  {
    if streams == [] {
    } else {
      var n := |streams| - 1;
      PlacesCount(streams[..n], prefix, copies);
      OfEntryCount(n, AtLeastZero(streams[n].count), |streams[n].subjects|, copies);
    }
  }

  // --- The order of the places, and no place twice ---

  // By entry, stream, subject and copy.
  predicate Before(p: Place, q: Place) {
    || p.entry < q.entry
    || (p.entry == q.entry
        && (|| p.stream < q.stream
            || (p.stream == q.stream && (p.subject < q.subject || (p.subject == q.subject && p.copy < q.copy)))))
  }

  ghost predicate Ascending(s: seq<Place>) {
    forall i, j :: 0 <= i < j < |s| ==> Before(s[i], s[j])
  }

  ghost predicate Precedes(a: seq<Place>, b: seq<Place>) {
    forall p, q :: p in a && q in b ==> Before(p, q)
  }

  lemma AscendingAppend(a: seq<Place>, b: seq<Place>)
    requires Ascending(a) && Ascending(b) && Precedes(a, b)
    ensures Ascending(a + b)
  {
    var s := a + b;
    forall i, j | 0 <= i < j < |s| ensures Before(s[i], s[j]) {
      if i < |a| {
        assert s[i] in a;
      }
      if j >= |a| {
        assert s[j] in b;
      }
    }
  }

  // Parts in order, each before the next, make a whole in order.
  lemma {:induction false} ConcatAscends(n: nat, part: nat -> seq<Place>)
    requires forall i: nat :: i < n ==> Ascending(part(i))
    requires forall i: nat, j: nat :: i < j < n ==> Precedes(part(i), part(j))
    ensures Ascending(Concat(n, part))
  {
    if n == 0 {
    } else {
      var last: nat := n - 1;
      ConcatAscends(last, part);
      forall p, q | p in Concat(last, part) && q in part(last) ensures Before(p, q) {
        InConcat(p, last, part);
        var i: nat :| i < last && p in part(i);
        assert Precedes(part(i), part(last));
      }
      AscendingAppend(Concat(last, part), part(last));
    }
  }

  lemma CopiesAscend(entry: nat, stream: nat, subject: nat, n: nat)
    ensures Ascending(Copies(entry, stream, subject, n))
  {
    ConcatAscends(n, CopyAt(entry, stream, subject));
  }

  lemma OfStreamAscends(entry: nat, stream: nat, subjects: nat, copies: nat)
    ensures Ascending(OfStream(entry, stream, subjects, copies))
  {
    var part := SubjectAt(entry, stream, copies);
    forall i: nat | i < subjects ensures Ascending(part(i)) {
      CopiesAscend(entry, stream, i, copies);
    }
    forall i: nat, j: nat | i < j < subjects ensures Precedes(part(i), part(j)) {
      forall p, q | p in part(i) && q in part(j) ensures Before(p, q) {
        InCopies(p, entry, stream, i, copies);
        InCopies(q, entry, stream, j, copies);
      }
    }
    ConcatAscends(subjects, part);
  }

  lemma OfEntryAscends(entry: nat, streams: nat, subjects: nat, copies: nat)
    ensures Ascending(OfEntry(entry, streams, subjects, copies))
  {
    var part := StreamAt(entry, subjects, copies);
    forall i: nat | i < streams ensures Ascending(part(i)) {
      OfStreamAscends(entry, i + 1, subjects, copies);
    }
    forall i: nat, j: nat | i < j < streams ensures Precedes(part(i), part(j)) {
      forall p, q | p in part(i) && q in part(j) ensures Before(p, q) {
        InOfStream(p, entry, i + 1, subjects, copies);
        InOfStream(q, entry, j + 1, subjects, copies);
      }
    }
    ConcatAscends(streams, part);
  }

  lemma {:induction false} PlacesAscend(streams: seq<StreamSpec>, prefix: string, copies: nat)
    ensures Ascending(Places(streams, prefix, copies))
  {
    if streams == [] {
    } else {
      var n := |streams| - 1;
      var k := AtLeastZero(streams[n].count);
      PlacesAscend(streams[..n], prefix, copies);
      OfEntryAscends(n, k, |streams[n].subjects|, copies);
      var a, b := Places(streams[..n], prefix, copies), OfEntry(n, k, |streams[n].subjects|, copies);
      forall p, q | p in a && q in b ensures Before(p, q) {
        InPlaces(p, streams[..n], prefix, copies);
        InOfEntry(q, n, k, |streams[n].subjects|, copies);
      }
      AscendingAppend(a, b);
    }
  }

  ghost predicate NoneTwice<T>(s: seq<T>) {
    forall i, j :: 0 <= i < j < |s| ==> s[i] != s[j]
  }

  lemma PlacesOnce(streams: seq<StreamSpec>, prefix: string, copies: nat)
    ensures NoneTwice(Places(streams, prefix, copies))
  {
    PlacesAscend(streams, prefix, copies);
    var places := Places(streams, prefix, copies);
    forall i, j | 0 <= i < j < |places| ensures places[i] != places[j] {
      assert Before(places[i], places[j]);
    }
  }

  // --- Names ---

  function Numbered(prefix: string, sep: char, p: Place): string {
    prefix + [sep] + (PrintInt(p.stream) + [sep] + (PrintInt(p.subject) + [sep] + PrintInt(p.copy)))
  }

  // The entry of the stream list does not enter into the name.
  lemma NumberedCollide(prefix: string, sep: char, p: Place, q: Place)
    requires !IsDigit(sep)
    ensures Numbered(prefix, sep, p) == Numbered(prefix, sep, q) <==>
              p.stream == q.stream && p.subject == q.subject && p.copy == q.copy
  {
    if Numbered(prefix, sep, p) == Numbered(prefix, sep, q) {
      var a := PrintInt(p.stream) + [sep] + (PrintInt(p.subject) + [sep] + PrintInt(p.copy));
      var b := PrintInt(q.stream) + [sep] + (PrintInt(q.subject) + [sep] + PrintInt(q.copy));
      assert a == (prefix + [sep] + a)[|prefix| + 1..] && b == (prefix + [sep] + b)[|prefix| + 1..];
      SplitThree(PrintInt(p.stream), PrintInt(p.subject), PrintInt(p.copy), sep);
      SplitThree(PrintInt(q.stream), PrintInt(q.subject), PrintInt(q.copy), sep);
      PrintIntIsInjective(p.stream, q.stream);
      PrintIntIsInjective(p.subject, q.subject);
      PrintIntIsInjective(p.copy, q.copy);
    }
  }

  predicate AtMostOneMatches(streams: seq<StreamSpec>, prefix: string) {
    forall i, j :: 0 <= i < j < |streams| ==> !(Matches(streams[i], prefix) && Matches(streams[j], prefix))
  }

  ghost predicate NamesDiffer(places: seq<Place>, prefix: string, sep: char) {
    forall i, j :: 0 <= i < j < |places| ==> Numbered(prefix, sep, places[i]) != Numbered(prefix, sep, places[j])
  }

  // For validated streams, the names of all members differ exactly when at most
  // one entry of the list has the prefix. Validation lets several have it, and
  // their members then share names (and stream names).
  lemma NamesDifferIff(streams: seq<StreamSpec>, prefix: string, copies: nat, namePrefix: string, sep: char)
    requires !IsDigit(sep) && copies > 0 && forall s :: s in streams ==> ValidStream(s)
    ensures NamesDiffer(Places(streams, prefix, copies), namePrefix, sep) <==> AtMostOneMatches(streams, prefix)
  {
    var places := Places(streams, prefix, copies);
    PlacesOnce(streams, prefix, copies);
    if AtMostOneMatches(streams, prefix) {
      forall i, j | 0 <= i < j < |places|
        ensures Numbered(namePrefix, sep, places[i]) != Numbered(namePrefix, sep, places[j])
      {
        assert places[i] in places && places[j] in places;
        InPlaces(places[i], streams, prefix, copies);
        InPlaces(places[j], streams, prefix, copies);
        NumberedCollide(namePrefix, sep, places[i], places[j]);
      }
    } else {
      var m, n :| 0 <= m < n < |streams| && Matches(streams[m], prefix) && Matches(streams[n], prefix);
      SharedName(streams, prefix, copies, namePrefix, sep, m, n);
    }
  }

  lemma FirstIsPlace(streams: seq<StreamSpec>, prefix: string, copies: nat, n: nat)
    requires copies > 0 && n < |streams| && Matches(streams[n], prefix) && forall s :: s in streams ==> ValidStream(s)
    ensures Place(n, 1, 0, 1) in Places(streams, prefix, copies)
  {
    assert streams[n] in streams;
    InPlaces(Place(n, 1, 0, 1), streams, prefix, copies);
  }

  lemma SharedName(streams: seq<StreamSpec>, prefix: string, copies: nat, namePrefix: string, sep: char, m: nat, n: nat)
    requires !IsDigit(sep) && copies > 0 && forall s :: s in streams ==> ValidStream(s)
    requires m < n < |streams| && Matches(streams[m], prefix) && Matches(streams[n], prefix)
    ensures !NamesDiffer(Places(streams, prefix, copies), namePrefix, sep)
  {
    var places := Places(streams, prefix, copies);
    var p, q := Place(m, 1, 0, 1), Place(n, 1, 0, 1);
    FirstIsPlace(streams, prefix, copies, m);
    FirstIsPlace(streams, prefix, copies, n);
    var i :| 0 <= i < |places| && places[i] == p;
    var j :| 0 <= j < |places| && places[j] == q;
    NumberedCollide(namePrefix, sep, p, q);
    assert Numbered(namePrefix, sep, places[i]) == Numbered(namePrefix, sep, places[j]);
    assert i < j || j < i;
  }

  // --- The loops ---

  type OtherVerbs = (string, int) -> string

  // What is made of a stream's name, a subject and the numbers in the member's names.
  type Maker<T> = (string, string, Place) -> T

  predicate InRange(streams: seq<StreamSpec>, p: Place) {
    p.entry < |streams| && p.subject < |streams[p.entry].subjects|
  }

  function MemberAt<T>(streams: seq<StreamSpec>, other: OtherVerbs, make: Maker<T>): Place --> T {
    (p: Place) requires InRange(streams, p) =>
      make(StreamName(streams[p.entry].namePrefix, p.stream),
           FormatSubject(other, streams[p.entry].subjects[p.subject], p.stream), p)
  }

  // One member for each place, made by `at`.
  ghost predicate Made<T>(members: seq<T>, places: seq<Place>, at: Place --> T) {
    && |members| == |places|
    && forall x :: 0 <= x < |places| ==> at.requires(places[x]) && members[x] == at(places[x])
  }

  lemma MadeSnoc<T>(members: seq<T>, places: seq<Place>, at: Place --> T, m: T, p: Place)
    requires Made(members, places, at) && at.requires(p) && at(p) == m
    ensures Made(members + [m], places + [p], at)
  {
  }

  lemma OfStreamStep(places: seq<Place>, entry: nat, stream: nat, k: nat, copies: nat)
    ensures places + OfStream(entry, stream, k, copies) + Copies(entry, stream, k, copies)
         == places + OfStream(entry, stream, k + 1, copies)
  {
  }

  lemma OfEntryStep(places: seq<Place>, entry: nat, i: nat, subjects: nat, copies: nat)
    ensures places + OfEntry(entry, i, subjects, copies) + OfStream(entry, i + 1, subjects, copies)
         == places + OfEntry(entry, i + 1, subjects, copies)
  {
  }

  // A matching entry with a negative count, which validation refuses.
  predicate NegativeCount(streams: seq<StreamSpec>, prefix: string) {
    exists s :: s in streams && Matches(s, prefix) && s.count < 0
  }

  lemma PlacesStep(streams: seq<StreamSpec>, prefix: string, copies: nat, n: nat)
    requires n < |streams|
    ensures Places(streams[..n + 1], prefix, copies) ==
            if !Matches(streams[n], prefix) then Places(streams[..n], prefix, copies) else
            Places(streams[..n], prefix, copies)
            + OfEntry(n, AtLeastZero(streams[n].count), |streams[n].subjects|, copies)
    ensures NegativeCount(streams[..n + 1], prefix) <==>
            NegativeCount(streams[..n], prefix) || (Matches(streams[n], prefix) && streams[n].count < 0)
  {
    assert streams[..n + 1] == streams[..n] + [streams[n]];
    assert streams[..n + 1][..n] == streams[..n];
  }

  // The innermost loop: one stream, one subject.
  method AddCopies<T>(members: seq<T>, ghost places: seq<Place>, streams: seq<StreamSpec>, n: nat, i: nat, k: nat,
                      streamName: string, subject: string, countPerStream: int, other: OtherVerbs, make: Maker<T>)
    returns (r: seq<T>)
    requires n < |streams| && k < |streams[n].subjects| && streamName == StreamName(streams[n].namePrefix, i + 1)
    requires subject == FormatSubject(other, streams[n].subjects[k], i + 1)
    requires Made(members, places, MemberAt(streams, other, make))
    ensures Made(r, places + Copies(n, i + 1, k, AtLeastZero(countPerStream)), MemberAt(streams, other, make))
  {
    r := members;
    ghost var at := MemberAt(streams, other, make);
    ghost var reached := places;
    var j := 0;
    while j < countPerStream
      invariant 0 <= j <= AtLeastZero(countPerStream)
      invariant reached == places + Copies(n, i + 1, k, j)
      invariant Made(r, reached, at)
    {
      var p := Place(n, i + 1, k, j + 1);
      var member := make(streamName, subject, p);
      MadeSnoc(r, reached, at, member, p);
      r := r + [member];
      reached := reached + [p];
      j := j + 1;
    }
  }

  method AddSubjects<T>(members: seq<T>, ghost places: seq<Place>, streams: seq<StreamSpec>, n: nat, i: nat,
                        streamName: string, countPerStream: int, other: OtherVerbs, make: Maker<T>)
    returns (r: seq<T>)
    requires n < |streams| && streamName == StreamName(streams[n].namePrefix, i + 1)
    requires Made(members, places, MemberAt(streams, other, make))
    ensures Made(r, places + OfStream(n, i + 1, |streams[n].subjects|, AtLeastZero(countPerStream)),
                 MemberAt(streams, other, make))
  {
    r := members;
    ghost var reached := places;
    var subjects := GetFormattedSubjects(other, streams[n].subjects, i + 1);
    for k := 0 to |subjects|
      invariant reached == places + OfStream(n, i + 1, k, AtLeastZero(countPerStream))
      invariant Made(r, reached, MemberAt(streams, other, make))
    {
      r := AddCopies(r, reached, streams, n, i, k, streamName, subjects[k], countPerStream, other, make);
      reached := reached + Copies(n, i + 1, k, AtLeastZero(countPerStream));
      OfStreamStep(places, n, i + 1, k, AtLeastZero(countPerStream));
    }
  }

  // One matching entry: its streams, their subjects and the copies of each. Naming
  // a negative number of streams panics.
  method AddStreams<T>(members: seq<T>, ghost places: seq<Place>, streams: seq<StreamSpec>, n: nat,
                       countPerStream: int, other: OtherVerbs, make: Maker<T>)
    returns (panicked: bool, r: seq<T>)
    requires n < |streams|
    requires Made(members, places, MemberAt(streams, other, make))
    ensures panicked <==> streams[n].count < 0
    ensures !panicked ==>
      Made(r, places + OfEntry(n, streams[n].count, |streams[n].subjects|, AtLeastZero(countPerStream)),
           MemberAt(streams, other, make))
  {
    r := members;
    ghost var reached := places;
    var streamNames;
    panicked, streamNames := GetFormattedStreamNames(streams[n].namePrefix, streams[n].count);
    if panicked {
      return;
    }
    for i := 0 to |streamNames|
      invariant reached == places + OfEntry(n, i, |streams[n].subjects|, AtLeastZero(countPerStream))
      invariant Made(r, reached, MemberAt(streams, other, make))
    {
      r := AddSubjects(r, reached, streams, n, i, streamNames[i], countPerStream, other, make);
      reached := reached + OfStream(n, i + 1, |streams[n].subjects|, AtLeastZero(countPerStream));
      OfEntryStep(places, n, i, |streams[n].subjects|, AtLeastZero(countPerStream));
    }
  }

  method CreateMembers<T>(streams: seq<StreamSpec>, prefix: string, countPerStream: int, other: OtherVerbs,
                          make: Maker<T>)
    returns (panicked: bool, members: seq<T>)
    ensures panicked <==> NegativeCount(streams, prefix)
    ensures !panicked ==>
      Made(members, Places(streams, prefix, AtLeastZero(countPerStream)), MemberAt(streams, other, make))
  {
    members := [];
    for n := 0 to |streams|
      invariant !NegativeCount(streams[..n], prefix)
      invariant Made(members, Places(streams[..n], prefix, AtLeastZero(countPerStream)), MemberAt(streams, other, make))
    {
      PlacesStep(streams, prefix, AtLeastZero(countPerStream), n);
      if !Matches(streams[n], prefix) {
        continue;
      }
      panicked, members := AddStreams(members, Places(streams[..n], prefix, AtLeastZero(countPerStream)), streams, n,
                                      countPerStream, other, make);
      if panicked {
        assert streams[n] in streams;
        return;
      }
    }
    assert streams[..|streams|] == streams;
    panicked := false;
  }

  // Stream, subject and copy, as names end.
  function ThreeNumbers(p: Place, sep: string): string {
    PrintInt(p.stream) + sep + PrintInt(p.subject) + sep + PrintInt(p.copy)
  }

  // All places are those of entries with the prefix, and these are the names at them.
  lemma PlacesAreNamed(streams: seq<StreamSpec>, prefix: string, copies: nat)
    ensures forall p :: p in Places(streams, prefix, copies) ==>
              && InRange(streams, p)
              && StreamName(streams[p.entry].namePrefix, p.stream) == prefix + "_" + PrintInt(p.stream)
    ensures forall p, client ::
              Numbered(client + "-pub", '-', p) == client + "-pub-" + ThreeNumbers(p, "-")
    ensures forall p, client ::
              Numbered(client + "-con", '-', p) == client + "-con-" + ThreeNumbers(p, "-")
    ensures forall p, durable :: Numbered(durable, '_', p) == durable + "_" + ThreeNumbers(p, "_")
  {
    forall p | p in Places(streams, prefix, copies)
      ensures InRange(streams, p)
              && StreamName(streams[p.entry].namePrefix, p.stream) == prefix + "_" + PrintInt(p.stream)
    {
      InPlaces(p, streams, prefix, copies);
    }
    forall p, client ensures Numbered(client + "-pub", '-', p) == client + "-pub-" + ThreeNumbers(p, "-") {
      NumberedIs(client + "-pub", '-', p);
      assert client + "-pub" + "-" == client + "-pub-";
    }
    forall p, client ensures Numbered(client + "-con", '-', p) == client + "-con-" + ThreeNumbers(p, "-") {
      NumberedIs(client + "-con", '-', p);
      assert client + "-con" + "-" == client + "-con-";
    }
    forall p, durable ensures Numbered(durable, '_', p) == durable + "_" + ThreeNumbers(p, "_") {
      NumberedIs(durable, '_', p);
    }
  }

  lemma NumberedIs(prefix: string, sep: char, p: Place)
    ensures Numbered(prefix, sep, p) == prefix + [sep] + ThreeNumbers(p, [sep])
  {
    var a, b, c := PrintInt(p.stream), PrintInt(p.subject), PrintInt(p.copy);
    assert a + [sep] + b + [sep] + c == a + [sep] + (b + [sep] + c);
  }

  datatype Publisher = Publisher(id: string, streamName: string, subject: string, messageSize: int)
  datatype Consumer = Consumer(id: string, streamName: string, durableName: string, subject: string)

  function PublisherOf(client: string, messageSize: int): Maker<Publisher> {
    (streamName: string, subject: string, p: Place) =>
      Publisher(Numbered(client + "-pub", '-', p), streamName, subject, messageSize)
  }

  function ConsumerOf(client: string, durable: string): Maker<Consumer> {
    (streamName: string, subject: string, p: Place) =>
      Consumer(Numbered(client + "-con", '-', p), streamName, Numbered(durable, '_', p), subject)
  }

  // The first publisher made panics if its message has a negative size.
  method CreatePublishers(streams: seq<StreamSpec>, prefix: string, countPerStream: int, client: string,
                          messageSize: int, other: OtherVerbs)
    returns (panicked: bool, publishers: seq<Publisher>)
    ensures panicked <==>
      NegativeCount(streams, prefix) || (messageSize < 0 && Members(streams, prefix, AtLeastZero(countPerStream)) > 0)
    ensures !panicked ==>
      Made(publishers, Places(streams, prefix, AtLeastZero(countPerStream)),
           MemberAt(streams, other, PublisherOf(client, messageSize)))
    // What each of them carries.
    ensures !panicked ==>
      var places := Places(streams, prefix, AtLeastZero(countPerStream));
      |publishers| == |places| && forall x :: 0 <= x < |places| ==>
        && InRange(streams, places[x])
        && publishers[x].streamName == prefix + "_" + PrintInt(places[x].stream)
        && publishers[x].subject ==
             FormatSubject(other, streams[places[x].entry].subjects[places[x].subject], places[x].stream)
        && publishers[x].messageSize == messageSize
        && publishers[x].id == client + "-pub-" + ThreeNumbers(places[x], "-")
  {
    panicked, publishers := CreateMembers(streams, prefix, countPerStream, other, PublisherOf(client, messageSize));
    PlacesAreNamed(streams, prefix, AtLeastZero(countPerStream));
    PlacesCount(streams, prefix, AtLeastZero(countPerStream));
    panicked := panicked || (messageSize < 0 && publishers != []);
  }

  method CreateConsumers(streams: seq<StreamSpec>, prefix: string, countPerStream: int, client: string,
                         durable: string, other: OtherVerbs)
    returns (panicked: bool, consumers: seq<Consumer>)
    ensures panicked <==> NegativeCount(streams, prefix)
    ensures !panicked ==>
      Made(consumers, Places(streams, prefix, AtLeastZero(countPerStream)),
           MemberAt(streams, other, ConsumerOf(client, durable)))
    ensures !panicked ==>
      var places := Places(streams, prefix, AtLeastZero(countPerStream));
      |consumers| == |places| && forall x :: 0 <= x < |places| ==>
        && InRange(streams, places[x])
        && consumers[x].streamName == prefix + "_" + PrintInt(places[x].stream)
        && consumers[x].subject ==
             FormatSubject(other, streams[places[x].entry].subjects[places[x].subject], places[x].stream)
        && consumers[x].id == client + "-con-" + ThreeNumbers(places[x], "-")
        && consumers[x].durableName == durable + "_" + ThreeNumbers(places[x], "_")
  {
    panicked, consumers := CreateMembers(streams, prefix, countPerStream, other, ConsumerOf(client, durable));
    PlacesAreNamed(streams, prefix, AtLeastZero(countPerStream));
  }

  // --- What a validated specification creates ---

  ghost predicate AllDiffer<T, U>(s: seq<T>, name: T -> U) {
    forall i, j :: 0 <= i < j < |s| ==> name(s[i]) != name(s[j])
  }

  function PublisherId(): Publisher -> string {
    (p: Publisher) => p.id
  }

  function ConsumerId(): Consumer -> string {
    (c: Consumer) => c.id
  }

  function DurableName(): Consumer -> string {
    (c: Consumer) => c.durableName
  }

  lemma PublishersDiffer(streams: seq<StreamSpec>, prefix: string, copies: nat, client: string, messageSize: int,
                         other: OtherVerbs, publishers: seq<Publisher>)
    requires copies > 0 && forall s :: s in streams ==> ValidStream(s)
    requires Made(publishers, Places(streams, prefix, copies),
                  MemberAt(streams, other, PublisherOf(client, messageSize)))
    ensures |publishers| == Members(streams, prefix, copies)
    ensures AllDiffer(publishers, PublisherId()) <==> AtMostOneMatches(streams, prefix)
  {
    PlacesCount(streams, prefix, copies);
    NamesDifferIff(streams, prefix, copies, client + "-pub", '-');
    assert AllDiffer(publishers, PublisherId()) <==> NamesDiffer(Places(streams, prefix, copies), client + "-pub", '-');
  }

  lemma ConsumersDiffer(streams: seq<StreamSpec>, prefix: string, copies: nat, client: string, durable: string,
                        other: OtherVerbs, consumers: seq<Consumer>)
    requires copies > 0 && forall s :: s in streams ==> ValidStream(s)
    requires Made(consumers, Places(streams, prefix, copies), MemberAt(streams, other, ConsumerOf(client, durable)))
    ensures |consumers| == Members(streams, prefix, copies)
    ensures AllDiffer(consumers, ConsumerId()) <==> AtMostOneMatches(streams, prefix)
    ensures AllDiffer(consumers, DurableName()) <==> AtMostOneMatches(streams, prefix)
  {
    PlacesCount(streams, prefix, copies);
    NamesDifferIff(streams, prefix, copies, client + "-con", '-');
    NamesDifferIff(streams, prefix, copies, durable, '_');
    var places := Places(streams, prefix, copies);
    assert AllDiffer(consumers, ConsumerId()) <==> NamesDiffer(places, client + "-con", '-');
    assert AllDiffer(consumers, DurableName()) <==> NamesDiffer(places, durable, '_');
  }

  // With a single matching entry: Count * |Subjects| * CountPerStream members.
  lemma {:induction false} MembersOfOne(streams: seq<StreamSpec>, prefix: string, copies: nat, n: nat)
    requires n < |streams| && Matches(streams[n], prefix) && AtMostOneMatches(streams, prefix)
    ensures Members(streams, prefix, copies) == AtLeastZero(streams[n].count) * (|streams[n].subjects| * copies)
  {
    var last := |streams| - 1;
    if n < last {
      MembersOfOne(streams[..last], prefix, copies, n);
    } else {
      MembersOfNone(streams[..last], prefix, copies);
    }
  }

  lemma {:induction false} MembersOfNone(streams: seq<StreamSpec>, prefix: string, copies: nat)
    requires forall s :: s in streams ==> !Matches(s, prefix)
    ensures Members(streams, prefix, copies) == 0
  {
    if streams == [] {
    } else {
      MembersOfNone(streams[..|streams| - 1], prefix, copies);
    }
  }
}
