// Which of the errors recorded since the last drain the collector keeps.
module ErrorWindow {
  import opened Sequences
  import opened StatsModel

  function Size(errs: seq<ErrorText>): nat {
    if errs == [] then 0 else |errs[0]| + Size(errs[1..])
  }

  // Size is the number of bytes of all of them.
  lemma {:induction false} SizeIsTotal(errs: seq<ErrorText>)
    ensures Size(errs) == |Flatten(errs)|
  {
    if errs == [] {
    } else {
      var init := errs[..|errs| - 1];
      SizeIsTotal(init);
      SizeSnoc(init, Last(errs));
      assert errs == init + [Last(errs)];
    }
  }

  predicate Fits(errs: seq<ErrorText>, maxLines: int, maxBytes: int) {
    |errs| <= maxLines && Size(errs) <= maxBytes
  }

  // w is the longest suffix of the history that fits, or just the newest error
  // when that error alone is too long.
  ghost predicate IsWindow(w: seq<ErrorText>, history: seq<ErrorText>, maxLines: int, maxBytes: int) {
    && IsSuffix(w, history)
    && (history == [] ==> w == [])
    && (history != [] && |Last(history)| > maxBytes ==> w == [Last(history)])
    && (history != [] && |Last(history)| <= maxBytes ==>
          && Fits(w, maxLines, maxBytes)
          && forall t :: IsSuffix(t, history) && Fits(t, maxLines, maxBytes) ==> |t| <= |w|)
  }

  lemma WindowIsUnique(v: seq<ErrorText>, w: seq<ErrorText>, history: seq<ErrorText>, maxLines: int, maxBytes: int)
    requires IsWindow(v, history, maxLines, maxBytes) && IsWindow(w, history, maxLines, maxBytes)
    ensures v == w
  {
    if history != [] && |Last(history)| <= maxBytes {
      assert |v| <= |w| && |w| <= |v|;
    }
  }

  // Nothing is kept only when nothing was recorded.
  lemma {:induction false} WindowKeepsNewest(w: seq<ErrorText>, history: seq<ErrorText>, maxLines: int, maxBytes: int)
    requires maxLines >= 1 && history != [] && IsWindow(w, history, maxLines, maxBytes)
    ensures w != [] && Last(w) == Last(history)
  {
    if |Last(history)| <= maxBytes {
      var t := [Last(history)];
      assert t[1..] == [] && Size(t) == |Last(history)|;
      assert IsSuffix(t, history);
    }
  }

  lemma {:induction false} SizeAppend(a: seq<ErrorText>, b: seq<ErrorText>)
    ensures Size(a + b) == Size(a) + Size(b)
  {
    if a == [] {
      assert a + b == b;
    } else {
      SizeAppend(a[1..], b);
      assert (a + b)[1..] == a[1..] + b;
    }
  }

  lemma SizeSnoc(a: seq<ErrorText>, e: ErrorText)
    ensures Size(a + [e]) == Size(a) + |e|
  {
    SizeAppend(a, [e]);
    assert [e][1..] == [];
  }

  // v is what eviction leaves of w before e is appended: the longest suffix that
  // leaves room for one more line and e's bytes, or nothing.
  ghost predicate LeavesRoom(v: seq<ErrorText>, w: seq<ErrorText>, e: ErrorText, maxLines: int, maxBytes: int) {
    && IsSuffix(v, w)
    && |v| < maxLines
    && (v == [] || Size(v) + |e| <= maxBytes)
    && forall t :: IsSuffix(t, w) && |t| < maxLines && Size(t) + |e| <= maxBytes ==> |t| <= |v|
  }

  lemma DropLastOfSuffix(t: seq<ErrorText>, history: seq<ErrorText>, e: ErrorText)
    requires IsSuffix(t, history + [e]) && t != []
    ensures Last(t) == e && t == t[..|t| - 1] + [e] && IsSuffix(t[..|t| - 1], history)
  {
    var all := history + [e];
    assert t == all[|all| - |t|..];
    assert t[..|t| - 1] == history[|history| - (|t| - 1)..];
  }

  lemma LastIsCounted(t: seq<ErrorText>)
    ensures t != [] ==> |Last(t)| <= Size(t)
  {
    if t != [] {
      SizeSnoc(t[..|t| - 1], Last(t));
      assert t == t[..|t| - 1] + [Last(t)];
    }
  }

  // A suffix that leaves room for e fitted before e came.
  lemma FitsBefore(t: seq<ErrorText>, w: seq<ErrorText>, history: seq<ErrorText>, e: ErrorText, maxLines: int,
                   maxBytes: int)
    requires IsWindow(w, history, maxLines, maxBytes)
    requires IsSuffix(t, history) && |t| < maxLines && Size(t) + |e| <= maxBytes
    ensures IsSuffix(t, w)
  {
    LastIsCounted(t);
    if t != [] {
      assert Last(t) == Last(history);
    }
  }

  lemma NoneLonger(t: seq<ErrorText>, v: seq<ErrorText>, w: seq<ErrorText>, history: seq<ErrorText>, e: ErrorText,
                   maxLines: int, maxBytes: int)
    requires IsWindow(w, history, maxLines, maxBytes) && LeavesRoom(v, w, e, maxLines, maxBytes)
    requires IsSuffix(t, history + [e]) && Fits(t, maxLines, maxBytes)
    ensures |t| <= |v| + 1
  {
    if t != [] {
      DropLastOfSuffix(t, history, e);
      SizeSnoc(t[..|t| - 1], e);
      FitsBefore(t[..|t| - 1], w, history, e, maxLines, maxBytes);
    }
  }

  // Evicting from the window of the history and appending gives the window of the
  // longer history: the incremental step computes what the definition says.
  lemma WindowStep(v: seq<ErrorText>, w: seq<ErrorText>, history: seq<ErrorText>, e: ErrorText, maxLines: int,
                   maxBytes: int)
    requires maxLines >= 1 && IsWindow(w, history, maxLines, maxBytes) && LeavesRoom(v, w, e, maxLines, maxBytes)
    ensures IsWindow(v + [e], history + [e], maxLines, maxBytes)
  {
    SuffixOfSuffix(v, w, history);
    assert IsSuffix(v + [e], history + [e]);
    SizeSnoc(v, e);
    assert Size([]) == 0;
    forall t | IsSuffix(t, history + [e]) && Fits(t, maxLines, maxBytes) ensures |t| <= |v + [e]| {
      NoneLonger(t, v, w, history, e, maxLines, maxBytes);
    }
  }

  // --- The window as a function ---

  function Longest(history: seq<ErrorText>, maxLines: int, maxBytes: int): seq<ErrorText> {
    if history == [] || maxLines <= 0 || |Last(history)| > maxBytes then [] else
    Longest(history[..|history| - 1], maxLines - 1, maxBytes - |Last(history)|) + [Last(history)]
  }

  function Window(history: seq<ErrorText>, maxLines: int, maxBytes: int): seq<ErrorText> {
    if history != [] && |Last(history)| > maxBytes then [Last(history)] else Longest(history, maxLines, maxBytes)
  }

  lemma LongestSnoc(init: seq<ErrorText>, e: ErrorText, maxLines: int, maxBytes: int)
    ensures Longest(init + [e], maxLines, maxBytes) ==
            if maxLines <= 0 || |e| > maxBytes then [] else Longest(init, maxLines - 1, maxBytes - |e|) + [e]
  {
    assert (init + [e])[..|init|] == init;
  }

  lemma FitsSnoc(w: seq<ErrorText>, e: ErrorText, maxLines: int, maxBytes: int)
    ensures Fits(w + [e], maxLines, maxBytes) <==> Fits(w, maxLines - 1, maxBytes - |e|)
  {
    SizeSnoc(w, e);
  }

  lemma FitsOneMore(init: seq<ErrorText>, e: ErrorText, maxLines: int, maxBytes: int)
    requires maxLines > 0 && |e| <= maxBytes
    requires IsSuffix(Longest(init, maxLines - 1, maxBytes - |e|), init)
    requires Fits(Longest(init, maxLines - 1, maxBytes - |e|), maxLines - 1, maxBytes - |e|)
    ensures IsSuffix(Longest(init + [e], maxLines, maxBytes), init + [e])
    ensures Fits(Longest(init + [e], maxLines, maxBytes), maxLines, maxBytes)
  {
    LongestSnoc(init, e, maxLines, maxBytes);
    FitsSnoc(Longest(init, maxLines - 1, maxBytes - |e|), e, maxLines, maxBytes);
    SuffixSnoc(Longest(init, maxLines - 1, maxBytes - |e|), init, e);
  }

  lemma {:induction false} LongestFits(history: seq<ErrorText>, maxLines: int, maxBytes: int)
    requires maxLines >= 0 && maxBytes >= 0
    ensures IsSuffix(Longest(history, maxLines, maxBytes), history)
    ensures Fits(Longest(history, maxLines, maxBytes), maxLines, maxBytes)
  {
    if history != [] && maxLines > 0 && |Last(history)| <= maxBytes {
      var init, e := history[..|history| - 1], Last(history);
      LongestFits(init, maxLines - 1, maxBytes - |e|);
      FitsOneMore(init, e, maxLines, maxBytes);
      assert history == init + [e];
    }
  }

  lemma OneMoreIsNotLonger(init: seq<ErrorText>, e: ErrorText, maxLines: int, maxBytes: int, t: seq<ErrorText>)
    requires maxLines > 0 && |e| <= maxBytes && |t| <= |Longest(init, maxLines - 1, maxBytes - |e|)|
    ensures |t + [e]| <= |Longest(init + [e], maxLines, maxBytes)|
  {
    LongestSnoc(init, e, maxLines, maxBytes);
  }

  lemma {:induction false} LongestIsLongest(history: seq<ErrorText>, maxLines: int, maxBytes: int, t: seq<ErrorText>)
    requires IsSuffix(t, history) && Fits(t, maxLines, maxBytes)
    ensures |t| <= |Longest(history, maxLines, maxBytes)|
  {
    if t == [] {
    } else {
      var before, e, rest := history[..|history| - 1], Last(history), t[..|t| - 1];
      assert history == before + [e];
      DropLastOfSuffix(t, before, e);
      FitsSnoc(rest, e, maxLines, maxBytes);
      FitsNeedsRoom(rest, e, maxLines, maxBytes);
      LongestIsLongest(before, maxLines - 1, maxBytes - |e|, rest);
      OneMoreIsNotLonger(before, e, maxLines, maxBytes, rest);
    }
  }

  lemma FitsNeedsRoom(rest: seq<ErrorText>, e: ErrorText, maxLines: int, maxBytes: int)
    requires Fits(rest, maxLines - 1, maxBytes - |e|)
    ensures maxLines > 0 && |e| <= maxBytes
  {
  }

  // The function computes exactly the window that the definition describes.
  lemma WindowMeetsDefinition(history: seq<ErrorText>, maxLines: int, maxBytes: int, w: seq<ErrorText>)
    requires maxLines >= 1
    ensures IsWindow(w, history, maxLines, maxBytes) <==> w == Window(history, maxLines, maxBytes)
  {
    var f := Window(history, maxLines, maxBytes);
    if history != [] && |Last(history)| <= maxBytes {
      LongestFits(history, maxLines, maxBytes);
      forall t | IsSuffix(t, history) && Fits(t, maxLines, maxBytes) ensures |t| <= |f| {
        LongestIsLongest(history, maxLines, maxBytes, t);
      }
    }
    assert IsWindow(f, history, maxLines, maxBytes);
    if IsWindow(w, history, maxLines, maxBytes) {
      WindowIsUnique(f, w, history, maxLines, maxBytes);
    }
  }

  lemma WindowAdvances(left: seq<ErrorText>, history: seq<ErrorText>, e: ErrorText, maxLines: int, maxBytes: int)
    requires maxLines >= 1 && LeavesRoom(left, Window(history, maxLines, maxBytes), e, maxLines, maxBytes)
    ensures left + [e] == Window(history + [e], maxLines, maxBytes)
  {
    WindowMeetsDefinition(history, maxLines, maxBytes, Window(history, maxLines, maxBytes));
    WindowStep(left, Window(history, maxLines, maxBytes), history, e, maxLines, maxBytes);
    WindowMeetsDefinition(history + [e], maxLines, maxBytes, left + [e]);
  }

  lemma WindowIsSmall(history: seq<ErrorText>, maxLines: int, maxBytes: int)
    requires maxLines >= 1
    ensures |Window(history, maxLines, maxBytes)| <= maxLines
  {
    WindowMeetsDefinition(history, maxLines, maxBytes, Window(history, maxLines, maxBytes));
  }

  // --- What the eviction loops leave ---

  // Drops from the front until at most room bytes remain.
  function DropUntil(s: seq<ErrorText>, room: int): seq<ErrorText> {
    if s == [] || Size(s) <= room then s else DropUntil(s[1..], room)
  }

  lemma {:induction false} DropUntilIsLongest(s: seq<ErrorText>, room: int)
    ensures IsSuffix(DropUntil(s, room), s)
    ensures DropUntil(s, room) == [] || Size(DropUntil(s, room)) <= room
    ensures forall t :: IsSuffix(t, s) && Size(t) <= room ==> |t| <= |DropUntil(s, room)|
  {
    if s != [] && Size(s) > room {
      DropUntilIsLongest(s[1..], room);
      forall t | IsSuffix(t, s) && Size(t) <= room ensures |t| <= |DropUntil(s, room)| {
        assert |t| == |s| ==> t == s;
        assert IsSuffix(t, s[1..]);
      }
    }
  }

  function Evicted(w: seq<ErrorText>, e: ErrorText, maxLines: int, maxBytes: int): seq<ErrorText>
    requires maxLines >= 1
  {
    DropUntil(if |w| >= maxLines then w[1..] else w, maxBytes - |e|)
  }

  lemma EvictedLeavesRoom(w: seq<ErrorText>, e: ErrorText, maxLines: int, maxBytes: int)
    requires 1 <= maxLines && |w| <= maxLines
    ensures LeavesRoom(Evicted(w, e, maxLines, maxBytes), w, e, maxLines, maxBytes)
  {
    DroppedLeavesRoom(if |w| >= maxLines then w[1..] else w, w, e, maxLines, maxBytes);
  }

  lemma DroppedLeavesRoom(start: seq<ErrorText>, w: seq<ErrorText>, e: ErrorText, maxLines: int, maxBytes: int)
    requires IsSuffix(start, w) && |start| < maxLines && (start == w || |start| == maxLines - 1)
    ensures LeavesRoom(DropUntil(start, maxBytes - |e|), w, e, maxLines, maxBytes)
  {
    var room := maxBytes - |e|;
    DropUntilIsLongest(start, room);
    SuffixOfSuffix(DropUntil(start, room), start, w);
    forall t | IsSuffix(t, w) && |t| < maxLines && Size(t) + |e| <= maxBytes ensures |t| <= |DropUntil(start, room)| {
      ShorterSuffix(t, start, w);
      DropUntilKeeps(start, room, t);
    }
  }

  lemma DropUntilKeeps(s: seq<ErrorText>, room: int, t: seq<ErrorText>)
    requires IsSuffix(t, s) && Size(t) <= room
    ensures |t| <= |DropUntil(s, room)|
  {
    DropUntilIsLongest(s, room);
  }

  lemma ShorterSuffix(t: seq<ErrorText>, s: seq<ErrorText>, w: seq<ErrorText>)
    requires IsSuffix(t, w) && IsSuffix(s, w) && |t| <= |s|
    ensures IsSuffix(t, s)
  {
    assert s[|s| - |t|..] == w[|w| - |t|..];
  }

  // Evicting and appending turns the window of a history into the window of the
  // history with the new error.
  lemma EvictionAdvancesWindow(history: seq<ErrorText>, e: ErrorText, maxLines: int, maxBytes: int)
    requires maxLines >= 1
    ensures Evicted(Window(history, maxLines, maxBytes), e, maxLines, maxBytes) + [e]
         == Window(history + [e], maxLines, maxBytes)
  {
    WindowIsSmall(history, maxLines, maxBytes);
    EvictedLeavesRoom(Window(history, maxLines, maxBytes), e, maxLines, maxBytes);
    WindowAdvances(Evicted(Window(history, maxLines, maxBytes), e, maxLines, maxBytes), history, e, maxLines, maxBytes);
  }
}
