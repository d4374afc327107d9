// Stream names and subjects: placeholders, their formatting, and which names
// tell the streams of a specification apart.
module Naming {
  import opened Sequences
  import opened Decimal

  // --- Placeholders ---

  predicate PairAt(s: string, i: int, a: char, b: char) {
    0 <= i < |s| - 1 && s[i] == a && s[i + 1] == b
  }

  // strings.Contains with two characters.
  predicate HasPair(s: string, a: char, b: char) {
    exists i :: 0 <= i < |s| && PairAt(s, i, a, b)
  }

  // strings.ReplaceAll of "{}" by "%d".
  function Normalized(s: string): (r: string)
    ensures s == [] <==> r == []
  {
    if s == [] then []
    else if PairAt(s, 0, '{', '}') then "%d" + Normalized(s[2..])
    else [s[0]] + Normalized(s[1..])
  }

  lemma HasPairCons(c: char, s: string, a: char, b: char)
    ensures HasPair([c] + s, a, b) <==> (s != [] && c == a && s[0] == b) || HasPair(s, a, b)
  {
    var t := [c] + s;
    if HasPair(s, a, b) {
      var i :| 0 <= i < |s| && PairAt(s, i, a, b);
      assert PairAt(t, i + 1, a, b);
    }
    if s != [] && c == a && s[0] == b {
      assert PairAt(t, 0, a, b);
    }
    if HasPair(t, a, b) {
      var i :| 0 <= i < |t| && PairAt(t, i, a, b);
      if i > 0 {
        assert s[i - 1] == t[i] && s[i] == t[i + 1];
        assert PairAt(s, i - 1, a, b);
      }
    }
  }

  lemma {:induction false} NormalizedHead(s: string)
    requires s != []
    ensures Normalized(s)[0] == if PairAt(s, 0, '{', '}') then '%' else s[0]
  {
  }

  // Afterwards there is no "{}", and there is a "%d" exactly when there was either.
  lemma {:induction false} NormalizedPlaceholders(s: string)
    ensures !HasPair(Normalized(s), '{', '}')
    ensures HasPair(Normalized(s), '%', 'd') <==> HasPair(s, '{', '}') || HasPair(s, '%', 'd')
  {
    if s == [] {
    } else {
      var c, t := s[0], s[1..];
      assert s == [c] + t;
      HasPairCons(c, t, '{', '}');
      HasPairCons(c, t, '%', 'd');
      if t != [] {
        NormalizedHead(t);
      }
      if PairAt(s, 0, '{', '}') {
        var rest := Normalized(s[2..]);
        NormalizedPlaceholders(s[2..]);
        HasPairCons('d', rest, '{', '}');
        HasPairCons('%', ['d'] + rest, '{', '}');
        HasPairCons('%', ['d'] + rest, '%', 'd');
        assert Normalized(s) == ['%'] + (['d'] + rest);
      } else {
        NormalizedPlaceholders(t);
        HasPairCons(c, Normalized(t), '{', '}');
        HasPairCons(c, Normalized(t), '%', 'd');
      }
    }
  }

  lemma {:induction false} NothingToNormalize(s: string)
    requires !HasPair(s, '{', '}')
    ensures Normalized(s) == s
  {
    if s == [] {
    } else {
      assert s == [s[0]] + s[1..];
      HasPairCons(s[0], s[1..], '{', '}');
      NothingToNormalize(s[1..]);
    }
  }

  // Validating a validated specification again changes no subject.
  lemma NormalizedIsIdempotent(s: string)
    ensures Normalized(Normalized(s)) == Normalized(s)
  {
    NormalizedPlaceholders(s);
    NothingToNormalize(Normalized(s));
  }

  // Normalizing replaces the first "{}" and goes on behind it.
  lemma {:induction false} NormalizedFirst(before: string, after: string)
    requires !HasPair(before, '{', '}')
    ensures Normalized(before + "{}" + after) == before + "%d" + Normalized(after)
  {
    var s := before + "{}" + after;
    if before == [] {
      assert s[2..] == after;
    } else {
      var c, rest := before[0], before[1..];
      assert before == [c] + rest;
      HasPairCons(c, rest, '{', '}');
      NormalizedFirst(rest, after);
      assert s[1..] == rest + "{}" + after;
      assert !PairAt(before, 0, '{', '}');
      assert !PairAt(s, 0, '{', '}');
    }
  }

  method NormalizeSubjects(subjects: array<string>)
    modifies subjects
    ensures forall i :: 0 <= i < subjects.Length ==> subjects[i] == Normalized(old(subjects[i]))
  {
    for i := 0 to subjects.Length
      invariant forall j :: 0 <= j < i ==> subjects[j] == Normalized(old(subjects[j]))
      invariant forall j :: i <= j < subjects.Length ==> subjects[j] == old(subjects[j])
    {
      subjects[i] := Normalized(subjects[i]);
    }
  }

  // --- fmt.Sprintf with one int32 ---

  predicate VerbFirst(t: string) {
    PairAt(t, 0, '%', 'd')
  }

  // How many characters the first literal takes; "%%" is one.
  function Literal(t: string): (n: nat)
    requires t != []
    ensures 0 < n <= |t|
  {
    if PairAt(t, 0, '%', '%') then 2 else 1
  }

  // Every % begins %d or %%.
  predicate Plain(t: string) {
    if t == [] then true
    else if VerbFirst(t) then Plain(t[2..])
    else (t[0] == '%' ==> PairAt(t, 0, '%', '%')) && Plain(t[Literal(t)..])
  }

  const EXTRA := "%!(EXTRA int32="
  const MISSING := "%!d(MISSING)"

  // A verb that finds no argument, and an argument that finds no verb, leave a
  // mark in the text.
  function Printed(t: string, arg: Option<int>): string
    requires Plain(t)
  {
    if t == [] then (if arg.None? then "" else EXTRA + PrintInt(arg.value) + [')'])
    else if VerbFirst(t) then (if arg.None? then MISSING else PrintInt(arg.value)) + Printed(t[2..], None)
    else [t[0]] + Printed(t[Literal(t)..], arg)
  }

  // What other verbs print is left to `other`.
  function Sprintf(other: (string, int) -> string, t: string, i: int): string {
    if Plain(t) then Printed(t, Some(i)) else other(t, i)
  }

  function FormatSubject(other: (string, int) -> string, subject: string, streamIndex: int): string {
    if HasPair(subject, '%', 'd') then Sprintf(other, subject, streamIndex) else subject
  }

  // The printed text around the argument, which is printed exactly once.
  function Around(t: string): (string, string)
    requires Plain(t)
  {
    if t == [] then (EXTRA, [')'])
    else if VerbFirst(t) then ("", Printed(t[2..], None))
    else var rest := Around(t[Literal(t)..]); ([t[0]] + rest.0, rest.1)
  }

  lemma Regroup(c: string, a: string, p: string, b: string)
    ensures c + (a + p + b) == (c + a) + p + b
  {
  }

  lemma {:induction false} PrintedOnce(t: string, i: int)
    requires Plain(t)
    ensures Printed(t, Some(i)) == Around(t).0 + PrintInt(i) + Around(t).1
  {
    if t == [] {
    } else if VerbFirst(t) {
      assert "" + PrintInt(i) == PrintInt(i);
    } else {
      var rest := t[Literal(t)..];
      PrintedOnce(rest, i);
      Regroup([t[0]], Around(rest).0, PrintInt(i), Around(rest).1);
    }
  }

  lemma SameSurroundings(a: string, x: string, y: string, b: string)
    requires a + x + b == a + y + b
    ensures x == y
  {
    assert |x| == |y|;
    assert x == (a + x + b)[|a|..|a| + |x|];
    assert y == (a + y + b)[|a|..|a| + |y|];
  }

  // Two streams get different subjects exactly when the subject was written with
  // a placeholder of either kind.
  lemma SubjectsTellStreamsApart(other: (string, int) -> string, subject: string, i: int, j: int)
    requires HasPair(Normalized(subject), '%', 'd') ==> Plain(Normalized(subject))
    requires i != j
    ensures FormatSubject(other, Normalized(subject), i) != FormatSubject(other, Normalized(subject), j)
      <==> HasPair(subject, '{', '}') || HasPair(subject, '%', 'd')
  {
    var t := Normalized(subject);
    NormalizedPlaceholders(subject);
    if HasPair(t, '%', 'd') && FormatSubject(other, t, i) == FormatSubject(other, t, j) {
      PrintedOnce(t, i);
      PrintedOnce(t, j);
      SameSurroundings(Around(t).0, PrintInt(i), PrintInt(j), Around(t).1);
      PrintIntIsInjective(i, j);
    }
  }

  // A subject with exactly one placeholder and no other '%' is printed with the
  // index in its place and nothing else changed.
  lemma {:induction false} OnePlaceholder(before: string, after: string)
    requires '%' !in before && '%' !in after
    ensures Plain(before + "%d" + after) && Around(before + "%d" + after) == (before, after)
  {
    var t := before + "%d" + after;
    if before == [] {
      assert t[2..] == after;
      PlainText(after);
    } else {
      assert t[1..] == before[1..] + "%d" + after;
      OnePlaceholder(before[1..], after);
      assert before == [before[0]] + before[1..];
    }
  }

  lemma {:induction false} PlainText(t: string)
    requires '%' !in t
    ensures Plain(t) && Printed(t, None) == t
  {
    if t == [] {
    } else {
      PlainText(t[1..]);
    }
  }

  // A subject without a placeholder stays as it is; one with a single placeholder gets
  // the index in its place.
  lemma SubjectOf(other: (string, int) -> string, before: string, after: string, i: int)
    requires '%' !in before && '%' !in after
    ensures FormatSubject(other, before, i) == before
    ensures FormatSubject(other, before + "%d" + after, i) == before + PrintInt(i) + after
  {
    var t := before + "%d" + after;
    OnePlaceholder(before, after);
    PrintedOnce(t, i);
    assert PairAt(t, |before|, '%', 'd');
  }

  // A second placeholder finds nothing left to print.
  lemma SubjectOfTwo(other: (string, int) -> string, before: string, between: string, after: string, i: int)
    requires '%' !in before && '%' !in between && '%' !in after
    ensures FormatSubject(other, before + "%d" + (between + "%d" + after), i)
            == before + PrintInt(i) + (between + "%!d(MISSING)" + after)
  {
    var rest := between + "%d" + after;
    var t := before + "%d" + rest;
    MissingArgument(between, after);
    TextThen(before, "%d" + rest, Some(i));
    assert before + ("%d" + rest) == t && ("%d" + rest)[2..] == rest;
    assert PairAt(t, |before|, '%', 'd');
    Regroup(before, PrintInt(i), between + MISSING, after);
  }

  lemma MissingArgument(between: string, after: string)
    requires '%' !in between && '%' !in after
    ensures Plain(between + "%d" + after)
    ensures Printed(between + "%d" + after, None) == between + "%!d(MISSING)" + after
  {
    MissingFirst(after);
    TextThen(between, "%d" + after, None);
    Together(between, "%d", after);
    Together(between, MISSING, after);
  }

  lemma MissingFirst(after: string)
    requires '%' !in after
    ensures Plain("%d" + after) && Printed("%d" + after, None) == MISSING + after
  {
    PlainText(after);
    assert ("%d" + after)[2..] == after;
  }

  lemma Together(a: string, b: string, c: string)
    ensures a + (b + c) == a + b + c
  {
  }

  // An escaped one is none, and the index is appended with a mark.
  lemma EscapedPlaceholder(other: (string, int) -> string, before: string, i: int)
    requires '%' !in before
    ensures FormatSubject(other, before + "%%d", i) == before + ("%d%!(EXTRA int32=" + PrintInt(i) + ")")
  {
    var t := before + "%%d";
    EscapedVerb(i);
    TextThen(before, "%%d", Some(i));
    assert PairAt(t, |before| + 1, '%', 'd');
  }

  lemma EscapedVerb(i: int)
    ensures Plain("%%d") && Printed("%%d", Some(i)) == "%d%!(EXTRA int32=" + PrintInt(i) + ")"
  {
    TextStep('d', "", Some(i));
    assert "%%d"[2..] == ['d'] + "";
    Marked(PrintInt(i));
  }

  lemma Marked(number: string)
    ensures ['%'] + (['d'] + (EXTRA + number + [')'])) == "%d%!(EXTRA int32=" + number + ")"
  {
  }

  lemma TextStep(c: char, t: string, arg: Option<int>)
    requires c != '%' && Plain(t)
    ensures Plain([c] + t) && Printed([c] + t, arg) == [c] + Printed(t, arg)
  {
    assert ([c] + t)[1..] == t;
  }

  // Text before anything is printed as it is.
  lemma {:induction false} TextThen(before: string, t: string, arg: Option<int>)
    requires '%' !in before && Plain(t)
    ensures Plain(before + t) && Printed(before + t, arg) == before + Printed(t, arg)
  {
    if before == [] {
      assert before + t == t;
    } else {
      var c, rest := before[0], before[1..];
      TextThen(rest, t, arg);
      OneMoreThen(c, rest, t, arg);
      assert before == [c] + rest;
    }
  }

  lemma OneMoreThen(c: char, rest: string, t: string, arg: Option<int>)
    requires c != '%' && Plain(t) && Plain(rest + t) && Printed(rest + t, arg) == rest + Printed(t, arg)
    ensures Plain([c] + rest + t) && Printed([c] + rest + t, arg) == [c] + rest + Printed(t, arg)
  {
    TextStep(c, rest + t, arg);
    Prepended(c, rest, t);
    Prepended(c, rest, Printed(t, arg));
  }

  lemma Prepended(c: char, a: string, b: string)
    ensures [c] + a + b == [c] + (a + b)
  {
  }

  // --- Stream names ---

  function StreamName(prefix: string, index: int): string {
    prefix + ['_'] + PrintInt(index)
  }

  // Making room for a negative number of names panics.
  method GetFormattedStreamNames(prefix: string, count: int) returns (panicked: bool, names: seq<string>)
    ensures panicked <==> count < 0
    ensures !panicked ==> |names| == count && forall i :: 0 <= i < count ==> names[i] == StreamName(prefix, i + 1)
    ensures !panicked ==> forall i :: 0 <= i < count ==> names[i] == prefix + "_" + PrintInt(i + 1)
  {
    panicked, names := count < 0, [];
    if panicked {
      return;
    }
    for i := 0 to count
      invariant |names| == i && forall j :: 0 <= j < i ==> names[j] == StreamName(prefix, j + 1)
    {
      names := names + [StreamName(prefix, i + 1)];
    }
  }

  method GetFormattedSubjects(other: (string, int) -> string, templates: seq<string>, streamIndex: int)
    returns (subjects: seq<string>)
    ensures |subjects| == |templates|
    ensures forall k :: 0 <= k < |templates| ==> subjects[k] == FormatSubject(other, templates[k], streamIndex)
  {
    subjects := [];
    for k := 0 to |templates|
      invariant |subjects| == k
      invariant forall l :: 0 <= l < k ==> subjects[l] == FormatSubject(other, templates[l], streamIndex)
    {
      subjects := subjects + [FormatSubject(other, templates[k], streamIndex)];
    }
  }

  lemma LastSeparator(x: string, a: string, y: string, b: string, sep: char)
    requires sep !in a && sep !in b
    requires x + [sep] + a == y + [sep] + b
    ensures x == y && a == b
  {
    var s := x + [sep] + a;
    if |x| < |y| {
      SeparatorInTail(x, a, y, b, sep);
    } else if |y| < |x| {
      SeparatorInTail(y, b, x, a, sep);
    } else {
      assert x == s[..|x|] && y == s[..|y|];
      assert a == s[|x| + 1..] && b == s[|y| + 1..];
    }
  }

  lemma SeparatorInTail(x: string, a: string, y: string, b: string, sep: char)
    requires x + [sep] + a == y + [sep] + b && |x| < |y|
    ensures sep in a
  {
    assert a[|y| - |x| - 1] == (y + [sep] + b)[|y|];
  }

  // Whatever the prefixes, also ones that end in numbers themselves.
  lemma StreamNamesCollide(prefix: string, i: int, prefix': string, j: int)
    ensures StreamName(prefix, i) == StreamName(prefix', j) <==> prefix == prefix' && i == j
  {
    if StreamName(prefix, i) == StreamName(prefix', j) {
      PrintIntAvoids(i, '_');
      PrintIntAvoids(j, '_');
      LastSeparator(prefix, PrintInt(i), prefix', PrintInt(j), '_');
      PrintIntIsInjective(i, j);
    }
  }
}
