// Printing integers the way fmt's %d does, reading them back the way
// strconv.ParseInt does, and how the printed forms compare as keys.
module Decimal {
  import opened Sequences

  predicate IsDigit(c: char) {
    '0' <= c <= '9'
  }

  function DigitOf(d: nat): (c: char)
    requires d < 10
    ensures IsDigit(c) && c as int - '0' as int == d
  {
    ('0' as int + d) as char
  }

  function PrintNat(n: nat): (s: string)
    ensures s != [] && forall c :: c in s ==> IsDigit(c)
  {
    if n < 10 then [DigitOf(n)] else PrintNat(n / 10) + [DigitOf(n % 10)]
  }

  function PrintInt(i: int): string {
    if i < 0 then "-" + PrintNat(-i) else PrintNat(i)
  }

  function ParseNat(s: string): Option<nat> {
    if s == [] || !IsDigit(Last(s)) then None
    else
      var d := Last(s) as int - '0' as int;
      if |s| == 1 then Some(d) else
      var rest := ParseNat(s[..|s| - 1]);
      if rest.None? then None else Some(10 * rest.value + d)
  }

  const MAX_INT64: int := 0x7FFF_FFFF_FFFF_FFFF

  predicate IsInt64(i: int) {
    -MAX_INT64 - 1 <= i <= MAX_INT64
  }

  function ParseInt(s: string): Option<int> {
    if s == [] then None else
    var negative := s[0] == '-';
    var magnitude := ParseNat(if s[0] == '-' || s[0] == '+' then s[1..] else s);
    if magnitude.None? then None else
    var m: int := magnitude.value;
    var i := if negative then -m else m;
    if IsInt64(i) then Some(i) else None
  }

  lemma {:induction false} ParsePrintNat(n: nat)
    ensures ParseNat(PrintNat(n)) == Some(n)
  {
    if n >= 10 {
      ParsePrintNat(n / 10);
      var s := PrintNat(n);
      assert s[..|s| - 1] == PrintNat(n / 10);
    }
  }

  lemma ParsePrintInt(i: int)
    requires IsInt64(i)
    ensures ParseInt(PrintInt(i)) == Some(i)
  {
    if i < 0 {
      ParsePrintNat(-i);
      ParseSigned(PrintNat(-i), -i);
    } else {
      ParsePrintNat(i);
      FirstIsDigit(i);
      ParseUnsigned(PrintNat(i), i);
    }
  }

  lemma ParseSigned(digits: string, n: nat)
    requires ParseNat(digits) == Some(n) && IsInt64(0 - n)
    ensures ParseInt("-" + digits) == Some(0 - n)
  {
    assert ("-" + digits)[1..] == digits;
  }

  lemma ParseUnsigned(digits: string, n: nat)
    requires digits != [] && IsDigit(digits[0]) && ParseNat(digits) == Some(n) && IsInt64(n)
    ensures ParseInt(digits) == Some(n)
  {
  }

  lemma FirstIsDigit(n: nat)
    ensures IsDigit(PrintNat(n)[0])
  {
    assert PrintNat(n)[0] in PrintNat(n);
  }

  lemma PrintNatIsInjective(m: nat, n: nat)
    requires PrintNat(m) == PrintNat(n)
    ensures m == n
  {
    ParsePrintNat(m);
    ParsePrintNat(n);
  }

  lemma SignTellsApart(a: string, b: string)
    ensures "-" + a == "-" + b ==> a == b
    ensures b != [] && IsDigit(b[0]) ==> "-" + a != b
  {
    assert ("-" + a)[1..] == a && ("-" + b)[1..] == b;
  }

  lemma SignTells(m: nat, n: nat)
    ensures "-" + PrintNat(m) != PrintNat(n)
  {
    FirstIsDigit(n);
    SignTellsApart(PrintNat(m), PrintNat(n));
  }

  lemma PrintIntIsInjective(i: int, j: int)
    requires PrintInt(i) == PrintInt(j)
    ensures i == j
  {
    if i < 0 && j < 0 {
      SignTellsApart(PrintNat(-i), PrintNat(-j));
      PrintNatIsInjective(-i, -j);
    } else if i >= 0 && j >= 0 {
      PrintNatIsInjective(i, j);
    } else {
      SignTells(if i < 0 then -i else -j, if i < 0 then j else i);
    }
  }

  lemma PrintIntAvoids(i: int, c: char)
    requires c != '-' && !IsDigit(c)
    ensures c !in PrintInt(i)
  {
  }

  // --- Lexicographic order ---

  predicate LexLess(a: string, b: string) {
    b != [] && (a == [] || a[0] < b[0] || (a[0] == b[0] && LexLess(a[1..], b[1..])))
  }

  lemma {:induction false} LexSnoc(a: string, b: string, c: char, d: char)
    requires |a| == |b|
    ensures LexLess(a + [c], b + [d]) <==> LexLess(a, b) || (a == b && c < d)
  {
    if a == [] {
      assert a + [c] == [c] && b + [d] == [d];
    } else {
      LexSnoc(a[1..], b[1..], c, d);
      assert (a + [c])[1..] == a[1..] + [c] && (b + [d])[1..] == b[1..] + [d];
      assert a == [a[0]] + a[1..] && b == [b[0]] + b[1..];
    }
  }

  function Width(n: nat): nat {
    |PrintNat(n)|
  }

  // For numbers of equal width the printed order is the numeric order.
  lemma {:induction false} EqualWidthOrder(a: nat, b: nat)
    requires Width(a) == Width(b)
    ensures LexLess(PrintNat(a), PrintNat(b)) <==> a < b
  {
    if a < 10 {
      assert b < 10;
      LexSnoc([], [], DigitOf(a), DigitOf(b));
      assert [] + [DigitOf(a)] == PrintNat(a) && [] + [DigitOf(b)] == PrintNat(b);
    } else {
      EqualWidthOrder(a / 10, b / 10);
      LexSnoc(PrintNat(a / 10), PrintNat(b / 10), DigitOf(a % 10), DigitOf(b % 10));
      if PrintNat(a / 10) == PrintNat(b / 10) {
        PrintIntIsInjective(a / 10, b / 10);
      }
    }
  }

  // n without its last digits, so that it is at most w wide.
  function Leading(n: nat, w: nat): nat {
    if Width(n) <= w || n < 10 then n else Leading(n / 10, w)
  }

  lemma {:induction false} LeadingDigits(n: nat, w: nat)
    requires 0 < w <= Width(n)
    ensures PrintNat(Leading(n, w)) == PrintNat(n)[..w]
  {
    if Width(n) > w {
      LeadingDigits(n / 10, w);
    }
  }

  lemma {:induction false} LexPrefix(a: string, b: string)
    requires |a| < |b|
    ensures LexLess(a, b) <==> LexLess(a, b[..|a|]) || a == b[..|a|]
  {
    if a == [] {
    } else {
      LexPrefix(a[1..], b[1..]);
      assert b[..|a|][1..] == b[1..][..|a| - 1];
      assert a == [a[0]] + a[1..] && b[..|a|] == [b[0]] + b[..|a|][1..];
    }
  }

  lemma {:induction false} LexAsymmetric(a: string, b: string)
    ensures LexLess(a, b) <==> a != b && !LexLess(b, a)
  {
    if a != [] && b != [] && a[0] == b[0] {
      LexAsymmetric(a[1..], b[1..]);
      assert a == [a[0]] + a[1..] && b == [b[0]] + b[1..];
    }
  }

  lemma {:induction false} WidthIsMonotone(a: nat, b: nat)
    ensures a <= b ==> Width(a) <= Width(b)
  {
    if 10 <= a <= b {
      WidthIsMonotone(a / 10, b / 10);
    }
  }

  // Exactly when a smaller number is printed before a larger one: always if they
  // are equally wide; otherwise when it does not exceed the other's leading digits.
  lemma PrintedOrder(a: nat, b: nat)
    requires a < b
    ensures LexLess(PrintNat(a), PrintNat(b)) <==> Width(a) == Width(b) || a <= Leading(b, Width(a))
  {
    WidthIsMonotone(a, b);
    if Width(a) == Width(b) {
      EqualWidthOrder(a, b);
    } else {
      LexPrefix(PrintNat(a), PrintNat(b));
      LeadingDigits(b, Width(a));
      EqualWidthOrder(a, Leading(b, Width(a)));
      if a == Leading(b, Width(a)) {
      } else if PrintNat(a) == PrintNat(Leading(b, Width(a))) {
        PrintIntIsInjective(a, Leading(b, Width(a)));
      }
    }
  }

  // The order of keys is not the order of time across a change of width.
  lemma NineSortsAfterTen()
    ensures 9 < 10 && !LexLess(PrintNat(9), PrintNat(10))
  {
    PrintedOrder(9, 10);
    assert PrintNat(1) == [DigitOf(1)];
  }
}
