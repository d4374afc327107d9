// Small facts about sequences that several components share.
module Sequences {

  datatype Option<+T> = None | Some(value: T)

  function Last<T>(s: seq<T>): T
    requires |s| > 0
  {
    s[|s| - 1]
  }

  // The last n elements, or all of them when there are no more than n.
  function LastN<T>(s: seq<T>, n: nat): (r: seq<T>)
    ensures |r| == if |s| <= n then |s| else n
  {
    if |s| <= n then s else s[|s| - n..]
  }

  predicate IsSuffix<T(==)>(t: seq<T>, s: seq<T>) {
    |t| <= |s| && t == s[|s| - |t|..]
  }

  lemma SuffixOfSuffix<T>(a: seq<T>, b: seq<T>, c: seq<T>)
    requires IsSuffix(a, b) && IsSuffix(b, c)
    ensures IsSuffix(a, c)
  {
    assert a == c[|c| - |b|..][|b| - |a|..] == c[|c| - |a|..];
  }

  lemma LastNIsSuffix<T>(s: seq<T>, n: nat)
    ensures IsSuffix(LastN(s, n), s)
  {
  }

  lemma SuffixSnoc<T>(a: seq<T>, b: seq<T>, x: T)
    requires IsSuffix(a, b)
    ensures IsSuffix(a + [x], b + [x])
  {
    assert b + [x] == b[..|b| - |a|] + (a + [x]);
  }

  lemma AppendNext<T>(before: seq<T>, s: seq<T>, i: nat)
    requires i < |s|
    ensures before + s[..i] + [s[i]] == before + s[..i + 1]
  {
  }

  function Flatten<T>(ss: seq<seq<T>>): seq<T> {
    if ss == [] then [] else Flatten(ss[..|ss| - 1]) + Last(ss)
  }

  lemma FlattenSnoc<T>(ss: seq<seq<T>>, s: seq<T>)
    ensures Flatten(ss + [s]) == Flatten(ss) + s
  {
    assert (ss + [s])[..|ss|] == ss;
  }

  // Dropping the oldest elements before or after an append makes no difference.
  lemma LastNAppend<T>(s: seq<T>, x: T, n: nat)
    ensures LastN(LastN(s, n) + [x], n) == LastN(s + [x], n)
  {
  }

  // What f makes of the elements, where it makes something.
  function Selected<A, B>(s: seq<A>, f: A -> Option<B>): seq<B> {
    if s == [] then [] else
    var before := Selected(s[..|s| - 1], f);
    if f(Last(s)).None? then before else before + [f(Last(s)).value]
  }

  lemma SelectedSnoc<A, B>(s: seq<A>, x: A, f: A -> Option<B>)
    ensures Selected(s + [x], f) == if f(x).None? then Selected(s, f) else Selected(s, f) + [f(x).value]
  {
    assert (s + [x])[..|s|] == s;
  }

  lemma {:induction false} SelectedAppend<A, B>(a: seq<A>, b: seq<A>, f: A -> Option<B>)
    ensures Selected(a + b, f) == Selected(a, f) + Selected(b, f)
  {
    if b == [] {
      assert a + b == a;
    } else {
      SelectedAppend(a, b[..|b| - 1], f);
      assert (a + b)[..|a + b| - 1] == a + b[..|b| - 1] && Last(a + b) == Last(b);
    }
  }

  lemma SelectedFirst<A, B>(s: seq<A>, f: A -> Option<B>)
    requires s != [] && f(s[0]).Some?
    ensures Selected(s, f) == [f(s[0]).value] + Selected(s[1..], f)
  {
    var first := [s[0]];
    assert s == first + s[1..];
    SelectedAppend(first, s[1..], f);
    assert first[..0] == [] && Last(first) == s[0];
  }

  lemma {:induction false} SelectedPointwise<A, B, C>(a: seq<A>, b: seq<B>, f: A -> Option<C>, g: B -> Option<C>)
    requires |a| == |b| && forall i :: 0 <= i < |a| ==> f(a[i]) == g(b[i])
    ensures Selected(a, f) == Selected(b, g)
  {
    if a == [] {
    } else {
      SelectedPointwise(a[..|a| - 1], b[..|b| - 1], f, g);
    }
  }

  lemma {:induction false} SelectedHas<A, B>(s: seq<A>, f: A -> Option<B>, i: nat)
    requires i < |s| && f(s[i]).Some?
    ensures f(s[i]).value in Selected(s, f)
  {
    if i == |s| - 1 {
    } else {
      SelectedHas(s[..|s| - 1], f, i);
    }
  }
}
