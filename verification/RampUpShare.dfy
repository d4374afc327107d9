// The rate the ramp-up sets at a tick: the share of the target that has passed,
// up to rounding.
module RampUpShare {
  import opened Float64
  import opened Scaling
  import opened RampUp

  // --- The quotient ---

  lemma ConvertedIsNear(i: nat)
    ensures i as real - Part(i as real) <= Rounded(i as real) <= i as real + Part(i as real)
  {
    if i == 0 {
      IntegersAreRepresented(0);
    } else {
      RelativeError(i as real);
    }
  }

  lemma ProductRises(a: real, b: real, d: real)
    requires d > 0.0 && a < b
    ensures a * d < b * d
  {
  }

  lemma QuotientAtMost(e: real, d: real, q: real)
    requires d > 0.0 && e <= q * d
    ensures e / d <= q
  {
    var k := e / d;
    assert k * d == e;
    if q < k {
      ProductRises(q, k, d);
    }
  }

  lemma QuotientAtLeast(e: real, d: real, q: real)
    requires d > 0.0 && q * d <= e
    ensures q <= e / d
  {
    var k := e / d;
    assert k * d == e;
    if k < q {
      ProductRises(k, q, d);
    }
  }

  // y is within n 2^53rd parts of x.
  predicate Near(y: real, x: real, n: int) {
    x - n as real * Part(x) <= y <= x + n as real * Part(x)
  }

  lemma QuotientIsNear(elapsed: nat, duration: int)
    requires duration > 0 && Rounded(duration as real) > 0.0
    ensures Near(Rounded(elapsed as real) / Rounded(duration as real), elapsed as real / duration as real, 3)
  {
    ConvertedIsNear(elapsed);
    ConvertedIsNear(duration);
    QuotientBelow(elapsed as real, duration as real, Rounded(elapsed as real), Rounded(duration as real));
    QuotientAbove(elapsed as real, duration as real, Rounded(elapsed as real), Rounded(duration as real));
  }

  lemma QuotientBelow(x: real, y: real, e: real, d: real)
    requires x >= 0.0 && y > 0.0 && d > 0.0 && e <= x + Part(x) && y - Part(y) <= d
    ensures e / d <= x / y + 3.0 * Part(x / y)
  {
    var a := x / y + 3.0 * Part(x / y);
    QuotientAtLeast(x, y, 0.0);
    Spread(x, y, 3.0);
    ProductAtLeast(a, d, y);
    QuotientAtMost(e, d, a);
  }

  lemma QuotientAbove(x: real, y: real, e: real, d: real)
    requires x >= 0.0 && y > 0.0 && d > 0.0 && x - Part(x) <= e && d <= y + Part(y)
    ensures x / y - 3.0 * Part(x / y) <= e / d
  {
    var a := x / y - 3.0 * Part(x / y);
    QuotientAtLeast(x, y, 0.0);
    Spread(x, y, -3.0);
    ProductAtMost(a, d, y);
    QuotientAtLeast(e, d, a);
  }

  lemma Spread(x: real, y: real, n: real)
    requires y > 0.0
    ensures (x / y + n * Part(x / y)) * y == x + n * Part(x)
  {
    var q := x / y;
    assert q * y == x;
    assert (q + n * Part(q)) * y == q * y + n * Part(q * y);
  }

  lemma ProductAtLeast(a: real, d: real, y: real)
    requires a >= 0.0 && y - Part(y) <= d
    ensures a * y - Part(a * y) <= a * d
  {
    assert a * (y - Part(y)) <= a * d;
  }

  lemma ProductAtMost(a: real, d: real, y: real)
    requires a >= 0.0 && d <= y + Part(y)
    ensures a * d <= a * y + Part(a * y)
  {
    assert a * d <= a * (y + Part(y));
  }

  // --- The progress ---

  // The share of the ramp-up that has passed, from one hundredth on.
  function SharePassed(elapsed: nat, duration: int): real
    requires duration > 0
  {
    if 100 * elapsed <= duration then 0.01
    else if elapsed >= duration then 1.0
    else elapsed as real / duration as real
  }

  lemma ShareOfQuotient(elapsed: nat, duration: int)
    requires duration > 0
    ensures var q := elapsed as real / duration as real;
            q >= 0.0 && SharePassed(elapsed, duration) == if q <= 0.01 then 0.01 else if q >= 1.0 then 1.0 else q
  {
    var e, d := elapsed as real, duration as real;
    if 100 * elapsed <= duration {
      QuotientAtMost(e, d, 0.01);
    } else if elapsed >= duration {
      QuotientAtLeast(e, d, 1.0);
    } else {
      QuotientAtMost(e, d, 1.0);
      QuotientAtLeast(e, d, 0.01);
    }
  }

  lemma RoundedIsNear(x: real)
    requires x >= 0.0
    ensures x >= 1.0 / 256.0 ==> Near(Rounded(x), x, 1)
    ensures x < 1.0 / 256.0 ==> Rounded(x) <= 1.0 / 128.0
    ensures Rounded(x) >= 0.0
  {
    if x >= 1.0 / 256.0 {
      RelativeError(x);
    } else {
      SmallStaysSmall(x);
    }
    RoundedIsMonotone(0.0, x);
  }

  lemma ProgressIsNear(elapsed: nat, duration: int)
    requires duration > 0
    ensures Near(Progress(elapsed, duration), SharePassed(elapsed, duration), 5)
  {
    NotRoundedToZero(duration);
    QuotientIsNear(elapsed, duration);
    ShareOfQuotient(elapsed, duration);
    var q, quotient := elapsed as real / duration as real, Rounded(elapsed as real) / Rounded(duration as real);
    ConvertedIsNear(elapsed);
    QuotientAtLeast(Rounded(elapsed as real), Rounded(duration as real), 0.0);
    RoundedIsNear(quotient);
    ClampedIsNear(q, quotient, Rounded(quotient), SharePassed(elapsed, duration), Progress(elapsed, duration));
  }

  // Bringing both into their ranges keeps them near.
  lemma ClampedIsNear(q: real, quotient: real, rounded: real, share: real, progress: real)
    requires q >= 0.0 && Near(quotient, q, 3)
    requires quotient >= 1.0 / 256.0 ==> Near(rounded, quotient, 1)
    requires quotient < 1.0 / 256.0 ==> rounded <= 1.0 / 128.0
    requires share == if q <= 0.01 then 0.01 else if q >= 1.0 then 1.0 else q
    requires progress == if rounded >= 1.0 then 1.0 else if rounded < HUNDREDTH then HUNDREDTH else rounded
    ensures Near(progress, share, 5)
  {
    if quotient < 1.0 / 256.0 {
      assert q < 0.01;
    } else {
      assert q - 5.0 * Part(q) <= rounded <= q + 5.0 * Part(q);
      if q <= 0.01 {
        assert rounded <= 0.01 + 5.0 * Part(0.01);
      } else if q >= 1.0 {
        assert rounded >= 1.0 - 5.0 * Part(1.0);
      }
    }
  }

  // --- The rate ---

  lemma TimesNear(t: real, p: real, s: real)
    requires t >= 0.0 && Near(p, s, 5)
    ensures Near(Times(t, p), Times(t, s), 5)
  {
    TimesIsMonotone(s - 5.0 * Part(s), p, t);
    TimesIsMonotone(p, s + 5.0 * Part(s), t);
  }

  // At a tick the rate is the share of the target that has passed, rounded down, but for
  // a 2^50th part of it, and at least 1.
  lemma TickRateIsShare(target: int, elapsed: nat, duration: int)
    requires 1 <= target <= TWO_53 && duration > 0
    ensures var rate, ideal := TickRate(target, Progress(elapsed, duration)),
                               Times(target as real, SharePassed(elapsed, duration));
            && 1 <= rate <= target
            && ideal - ideal / 1125899906842624.0 - 1.0 < rate as real
            && (rate == 1 || rate as real <= ideal + ideal / 1125899906842624.0)
  {
    ProgressIsNear(elapsed, duration);
    ShareOfQuotient(elapsed, duration);
    RateOfProgress(target, Progress(elapsed, duration), SharePassed(elapsed, duration));
  }

  lemma RateOfProgress(target: int, p: real, s: real)
    requires 1 <= target <= TWO_53 && Near(p, s, 5) && 0.01 <= s <= 1.0
    ensures var rate, ideal := TickRate(target, p), Times(target as real, s);
            && 1 <= rate <= target
            && ideal - ideal / 1125899906842624.0 - 1.0 < rate as real
            && (rate == 1 || rate as real <= ideal + ideal / 1125899906842624.0)
  {
    var t := target as real;
    TimesNear(t, p, s);
    IdealIsAtMost(t, s);
    ProductIsLarge(t, p);
    RoundedIsNear(Times(t, p));
    ShareIsTruncated(target, p);
    RateIsNear(target, Share(target, p), Rounded(Times(t, p)), Times(t, p), Times(t, s));
  }

  lemma ShareIsTruncated(target: int, p: real)
    requires 1 <= target <= TWO_53 && Rounded(Times(target as real, p)) >= 0.0
    ensures Share(target, p) as real <= Rounded(Times(target as real, p)) < (Share(target, p) + 1) as real
  {
    IntegersAreRepresented(target);
  }

  lemma RateIsNear(target: int, share: int, rounded: real, product: real, ideal: real)
    requires target >= 1 && Near(product, ideal, 5) && Near(rounded, product, 1) && 0.0 <= ideal <= target as real
    requires share as real <= rounded < (share + 1) as real
    ensures var rate := RateFor(target, share);
            && 1 <= rate <= target
            && ideal - ideal / 1125899906842624.0 - 1.0 < rate as real
            && (rate == 1 || rate as real <= ideal + ideal / 1125899906842624.0)
  {
    assert rounded <= ideal + ideal / 1125899906842624.0 && ideal - ideal / 1125899906842624.0 <= rounded;
    if share <= 1 {
      assert RateFor(target, share) == 1;
    } else if share <= target {
      assert RateFor(target, share) == share;
    } else {
      assert RateFor(target, share) == target;
    }
  }

  lemma ProductIsLarge(t: real, p: real)
    requires t >= 1.0 && p >= 1.0 / 128.0
    ensures Times(t, p) >= 1.0 / 128.0
  {
  }

  lemma IdealIsAtMost(t: real, s: real)
    requires t >= 0.0 && 0.0 <= s <= 1.0
    ensures 0.0 <= Times(t, s) <= t
  {
  }

  // No more than half of the target before half of the time is over.
  lemma HalfTheTarget(half: int, elapsed: nat, duration: int)
    requires 1 <= half && 2 * half <= TWO_53 && duration > 0 && 2 * elapsed <= duration
    ensures TickRate(2 * half, Progress(elapsed, duration)) <= half
  {
    HalfTheProgress(elapsed, duration);
    HalfTheShare(half, Progress(elapsed, duration));
  }

  lemma HalfTheProgress(elapsed: nat, duration: int)
    requires duration > 0 && 2 * elapsed <= duration
    ensures Progress(elapsed, duration) <= 0.5
  {
    NotRoundedToZero(duration);
    var e, d := Rounded(elapsed as real), Rounded(duration as real);
    TwiceRounded(elapsed);
    RoundedIsMonotone((2 * elapsed) as real, duration as real);
    QuotientAtMost(e, d, 0.5);
    HalfIsRepresented();
    RoundedIsMonotone(e / d, 0.5);
  }

  lemma HalfTheShare(half: int, p: real)
    requires 1 <= half && 2 * half <= TWO_53 && 0.0 <= p <= 0.5
    ensures TickRate(2 * half, p) <= half
  {
    IntegersAreRepresented(2 * half);
    IntegersAreRepresented(half);
    TimesIsMonotone(p, 0.5, (2 * half) as real);
    assert Times((2 * half) as real, p) == Times(p, (2 * half) as real);
    RoundedIsMonotone(0.0, Times((2 * half) as real, p));
    RoundedIsMonotone(Times((2 * half) as real, p), half as real);
  }

  lemma TwiceRounded(i: nat)
    ensures Rounded((2 * i) as real) == 2.0 * Rounded(i as real)
  {
    if i == 0 {
      IntegersAreRepresented(0);
    } else {
      assert Positive((2 * i) as real) == 2.0 * Positive((2 * i) as real / 2.0);
    }
  }

  lemma HalfIsRepresented()
    ensures Rounded(0.5) == 0.5
  {
    IntegersAreRepresented(1);
    assert Positive(1.0) == 2.0 * Positive(0.5);
  }

  // All of it when the time is over.
  lemma FullAtTheEnd(target: int, elapsed: nat, duration: int)
    requires 1 <= target <= TWO_53 && 0 < duration <= elapsed
    ensures TickRate(target, Progress(elapsed, duration)) == target
  {
    NotRoundedToZero(duration);
    var e, d := Rounded(elapsed as real), Rounded(duration as real);
    RoundedIsMonotone(duration as real, elapsed as real);
    QuotientAtLeast(e, d, 1.0);
    IntegersAreRepresented(1);
    RoundedIsMonotone(1.0, e / d);
    IntegersAreRepresented(target);
  }
}
