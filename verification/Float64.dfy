// Rounding to the nearest float64, as the products of the program are rounded
// before they are converted back to integers.
module Float64 {

  const TWO_52: nat := 0x10_0000_0000_0000
  const TWO_53: nat := 0x20_0000_0000_0000
  const TWO_60: nat := 0x1000_0000_0000_0000

  // The nearest integer, an even one if there are two.
  function Nearest(z: real): (n: int)
    ensures z - 0.5 <= n as real <= z + 0.5
  {
    var f := z.Floor;
    if z - f as real < 0.5 then f
    else if z - f as real > 0.5 then f + 1
    else if f % 2 == 0 then f else f + 1
  }

  // Of two integers equally near it is the even one.
  lemma TiesToEven(n: int)
    ensures Nearest(n as real + 0.5) == if n % 2 == 0 then n else n + 1
  {
    assert (n as real + 0.5).Floor == n;
  }

  lemma NearestIsMonotone(y: real, z: real)
    requires y <= z
    ensures Nearest(y) <= Nearest(z)
  {
  }

  // A number of 53 binary digits: between 1/256 and 1/128 a multiple of 2^-60, and
  // from there on twice as coarse whenever the number doubles. Numbers below 1/256
  // are rounded to multiples of 2^-60 too, where float64 is finer still; of those it
  // is only ever seen that they are below 1/128. Exponents are not bounded.
  function Positive(x: real): real
    requires x >= 0.0
    decreases (x * 128.0).Floor
  {
    if x < 1.0 / 128.0 then Nearest(x * TWO_60 as real) as real / TWO_60 as real
    else Halved(x); 2.0 * Positive(x / 2.0)
  }

  lemma Halved(x: real)
    requires x >= 1.0 / 128.0
    ensures 0 <= (x / 2.0 * 128.0).Floor < (x * 128.0).Floor
  {
  }

  function Rounded(x: real): real {
    if x < 0.0 then -Positive(-x) else Positive(x)
  }

  // --- Order ---

  lemma SmallStaysSmall(x: real)
    requires 0.0 <= x < 1.0 / 128.0
    ensures 0.0 <= Positive(x) <= 1.0 / 128.0
  {
    var z := x * TWO_60 as real;
    assert z <= TWO_53 as real;
    NearestIsMonotone(z, TWO_53 as real);
    NearestIsMonotone(0.0, z);
  }

  lemma {:induction false} NotSmallStays(x: real)
    requires x >= 1.0 / 256.0
    ensures Positive(x) >= 1.0 / 256.0
    ensures x >= 1.0 / 128.0 ==> Positive(x) >= 1.0 / 128.0
    decreases (x * 128.0).Floor
  {
    if x < 1.0 / 128.0 {
      NearestIsMonotone(TWO_52 as real, x * TWO_60 as real);
    } else {
      Halved(x);
      NotSmallStays(x / 2.0);
    }
  }

  lemma {:induction false} PositiveIsMonotone(x: real, y: real)
    requires 0.0 <= x <= y
    ensures 0.0 <= Positive(x) <= Positive(y)
    decreases (y * 128.0).Floor
  {
    if y < 1.0 / 128.0 {
      SmallStaysSmall(x);
      NearestIsMonotone(x * TWO_60 as real, y * TWO_60 as real);
    } else if x < 1.0 / 128.0 {
      SmallStaysSmall(x);
      NotSmallStays(y);
    } else {
      Halved(y);
      PositiveIsMonotone(x / 2.0, y / 2.0);
    }
  }

  lemma RoundedIsMonotone(x: real, y: real)
    requires x <= y
    ensures Rounded(x) <= Rounded(y)
    ensures 0.0 <= x ==> 0.0 <= Rounded(x)
  {
    if 0.0 <= x {
      PositiveIsMonotone(x, y);
    } else if y < 0.0 {
      PositiveIsMonotone(-y, -x);
    } else {
      PositiveIsMonotone(0.0, -x);
      PositiveIsMonotone(0.0, y);
    }
  }

  // --- What is represented ---

  predicate Represented(x: real) {
    Rounded(x) == x
  }

  lemma {:induction false} PositiveTwice(x: real)
    requires x >= 0.0
    ensures Positive(x) >= 0.0 && Positive(Positive(x)) == Positive(x)
    decreases (x * 128.0).Floor
  {
    PositiveIsMonotone(0.0, x);
    if x < 1.0 / 128.0 {
      SmallStaysSmall(x);
      SmallTwice(Nearest(x * TWO_60 as real));
    } else {
      Halved(x);
      NotSmallStays(x);
      PositiveTwice(x / 2.0);
    }
  }

  lemma SmallTwice(n: nat)
    requires n <= TWO_53
    ensures Positive(n as real / TWO_60 as real) == n as real / TWO_60 as real
  {
    var y := n as real / TWO_60 as real;
    if n < TWO_53 {
      assert y * TWO_60 as real == n as real;
    } else {
      assert y == 1.0 / 128.0;
      assert y / 2.0 * TWO_60 as real == TWO_52 as real;
    }
  }

  lemma RoundedIsRepresented(x: real)
    ensures Represented(Rounded(x))
  {
    if x < 0.0 {
      PositiveIsMonotone(0.0, -x);
      PositiveTwice(-x);
    } else {
      PositiveTwice(x);
    }
  }

  function Pow2(i: nat): nat {
    if i == 0 then 1 else 2 * Pow2(i - 1)
  }

  // At most 53 digits, in units of 2^(i - 60).
  lemma {:induction false} FewDigits(x: real, n: nat, i: nat)
    requires x * TWO_60 as real == (n * Pow2(i)) as real && n <= TWO_53
    ensures x >= 0.0 && Positive(x) == x
    decreases i
  {
    if i == 0 {
      assert x == n as real / TWO_60 as real;
      SmallTwice(n);
    } else if x < 1.0 / 128.0 {
      assert x == (n * Pow2(i)) as real / TWO_60 as real;
      SmallTwice(n * Pow2(i));
    } else {
      assert n * Pow2(i) == 2 * (n * Pow2(i - 1));
      FewDigits(x / 2.0, n, i - 1);
    }
  }

  lemma {:induction false} Pow2Values(i: nat)
    ensures Pow2(i) >= 1
    ensures Pow2(10 + i) == 1024 * Pow2(i)
  {
    if i == 0 {
      assert Pow2(10) == 1024 by {
        assert Pow2(5) == 32 && Pow2(8) == 256;
      }
    } else {
      Pow2Values(i - 1);
    }
  }

  lemma Pow2Of60()
    ensures Pow2(60) == TWO_60
  {
    Pow2Values(0);
    Pow2Values(10);
    Pow2Values(20);
    Pow2Values(30);
    Pow2Values(40);
    Pow2Values(50);
  }

  // Every integer of up to 53 digits is represented.
  lemma IntegersAreRepresented(n: int)
    requires -(TWO_53 as int) <= n <= TWO_53
    ensures Represented(n as real)
  {
    Pow2Of60();
    if n >= 0 {
      FewDigits(n as real, n, 60);
    } else {
      FewDigits((-n) as real, -n, 60);
    }
  }

  // A rounded number from 2^(i - 8) on is a multiple of 2^(i - 60).
  lemma {:induction false} IsMultiple(x: real, i: nat) returns (n: nat)
    requires x * 256.0 >= Pow2(i) as real
    ensures Positive(x) * TWO_60 as real == (n * Pow2(i)) as real
    decreases i
  {
    if i == 0 {
      n := MultipleOfSmallest(x);
    } else {
      Pow2Values(i - 1);
      assert Pow2(i) >= 2;
      n := IsMultiple(x / 2.0, i - 1);
      Doubled(n, i);
    }
  }

  lemma Doubled(n: nat, i: nat)
    requires i > 0
    ensures n * Pow2(i) == 2 * (n * Pow2(i - 1))
  {
  }

  lemma PositiveIsNotNegative(x: real)
    requires x >= 0.0
    ensures Positive(x) >= 0.0
  {
    PositiveIsMonotone(0.0, x);
  }

  lemma {:induction false} MultipleOfSmallest(x: real) returns (n: nat)
    requires x >= 0.0
    ensures Positive(x) * TWO_60 as real == n as real
    decreases (x * 128.0).Floor
  {
    PositiveIsNotNegative(x);
    if x < 1.0 / 128.0 {
      NearestIsMonotone(0.0, x * TWO_60 as real);
      n := Nearest(x * TWO_60 as real);
    } else {
      Halved(x);
      var m := MultipleOfSmallest(x / 2.0);
      n := 2 * m;
    }
  }

  // From 2^52 on, rounded numbers are integers.
  lemma LargeAreIntegers(x: real)
    requires x >= TWO_52 as real
    ensures Rounded(x).Floor as real == Rounded(x)
  {
    Pow2Of60();
    var n := IsMultiple(x, 60);
    assert Positive(x) == n as real;
  }

  // --- How far rounding goes ---

  function Part(x: real): real {
    x / 9007199254740992.0  // 2^53
  }

  // By at most a 2^53rd part.
  lemma {:induction false} RelativeError(x: real)
    requires x >= 1.0 / 256.0
    ensures x - Part(x) <= Positive(x) <= x + Part(x)
    decreases (x * 128.0).Floor
  {
    if x < 1.0 / 128.0 {
      SmallError(x);
    } else {
      Halved(x);
      RelativeError(x / 2.0);
    }
  }

  lemma SmallError(x: real)
    requires 1.0 / 256.0 <= x < 1.0 / 128.0
    ensures x - Part(x) <= Positive(x) <= x + Part(x)
  {
    var n, z := Nearest(x * TWO_60 as real), x * TWO_60 as real;
    assert z - 0.5 <= n as real <= z + 0.5;
    assert Positive(x) * TWO_60 as real == n as real;
  }

  // How far below k the numbers begin that are rounded to k or more.
  function Margin(k: real): real
    requires k >= 0.0
    decreases (k * 128.0).Floor
  {
    if k <= 1.0 / 128.0 then 0.5 / TWO_60 as real else Halved(k); 2.0 * Margin(k / 2.0)
  }

  lemma {:induction false} MarginIsMonotone(j: real, k: real)
    requires 0.0 <= j <= k
    ensures 0.5 / TWO_60 as real <= Margin(j) <= Margin(k)
    decreases (k * 128.0).Floor
  {
    if k <= 1.0 / 128.0 {
    } else {
      Halved(k);
      if j <= 1.0 / 128.0 {
        MarginIsMonotone(0.0, k / 2.0);
      } else {
        MarginIsMonotone(j / 2.0, k / 2.0);
      }
    }
  }

  lemma {:induction false} MarginIsSmall(k: real)
    requires k >= 1.0 / 256.0
    ensures Margin(k) <= Part(k)
    decreases (k * 128.0).Floor
  {
    if k <= 1.0 / 128.0 {
    } else {
      Halved(k);
      MarginIsSmall(k / 2.0);
    }
  }

  lemma {:induction false} MarginIsEnough(k: real)
    requires k >= 0.0
    ensures Margin(k) >= Part(k) / 2.0
    decreases (k * 128.0).Floor
  {
    if k <= 1.0 / 128.0 {
    } else {
      Halved(k);
      MarginIsEnough(k / 2.0);
    }
  }

  lemma SmallRoundsUpTo(x: real, k: real, n: nat)
    requires x >= 0.0 && 0.0 < k <= 1.0 / 128.0 && k * TWO_60 as real == n as real
    ensures Positive(x) >= k ==> x >= k - Margin(k)
    ensures x > k - Margin(k) ==> Positive(x) >= k
  {
    if x < 1.0 / 128.0 {
      assert Margin(k) * TWO_60 as real == 0.5;
      SmallRoundsUp(x * TWO_60 as real, n);
    } else {
      NotSmallStays(x);
    }
  }

  lemma SmallRoundsUp(z: real, n: int)
    ensures Nearest(z) >= n ==> z >= n as real - 0.5
    ensures z > n as real - 0.5 ==> Nearest(z) >= n
  {
  }

  // A number that is rounded to k or more lies no further below k than the margin,
  // and any that lies less far below is rounded so.
  lemma {:induction false} RoundsUpTo(x: real, k: real, n: nat, i: nat)
    requires x >= 0.0 && k > 0.0 && k * TWO_60 as real == (n * Pow2(i)) as real && n <= TWO_53
    ensures Positive(x) >= k ==> x >= k - Margin(k)
    ensures x > k - Margin(k) ==> Positive(x) >= k
    decreases i
  {
    if k <= 1.0 / 128.0 {
      SmallRoundsUpTo(x, k, n * Pow2(i));
    } else {
      assert i == 0 ==> n * Pow2(i) == n;
      assert n * Pow2(i) == 2 * (n * Pow2(i - 1));
      Halved(k);
      if x < 1.0 / 128.0 {
        SmallStaysSmall(x);
        MarginIsSmall(k);
        FarAboveSmall(k, n * Pow2(i - 1));
      } else {
        RoundsUpTo(x / 2.0, k / 2.0, n, i - 1);
      }
    }
  }

  lemma FarAboveSmall(k: real, n: nat)
    requires k > 1.0 / 128.0 && k * TWO_60 as real == (2 * n) as real
    ensures k - Part(k) >= 1.0 / 128.0
  {
    assert 2 * n >= TWO_53 + 2;
  }

  // No carry is lost: what is rounded up to an integer still is after a little more
  // than 1 has been added, to the next one.
  lemma CarryIsKept(x: real, y: real, k: nat)
    requires x >= 0.0 && y > x + 1.0 && 0 < k < TWO_53 && Rounded(x) >= k as real
    ensures Rounded(y) >= (k + 1) as real
  {
    Pow2Of60();
    RoundsUpTo(x, k as real, k, 60);
    RoundsUpTo(y, (k + 1) as real, k + 1, 60);
    MarginIsMonotone(k as real, (k + 1) as real);
  }

  // The product before it is rounded.
  function Times(x: real, m: real): real {
    x * m
  }

  // No float64 lies between 1 and its neighbours on either side.
  predicate IsFactor(m: real) {
    (m < 1.0 ==> m <= 1.0 - Part(1.0)) && (m > 1.0 ==> m >= 1.0 + 2.0 * Part(1.0))
  }

  // A factor above 1 raises every represented number by at least a 2^53rd part.
  lemma FactorRaises(w: real, m: real)
    requires w >= 1.0 / 256.0 && Positive(w) == w && m > 1.0 && IsFactor(m)
    ensures Times(w, m) >= 0.0 && Rounded(Times(w, m)) >= w + Part(w)
  {
    Larger(w, m);
    PositiveIsMonotone(w + 2.0 * Part(w), Times(w, m));
    NextIsReached(w);
  }

  lemma Larger(w: real, m: real)
    requires w >= 0.0 && m >= 1.0 + 2.0 * Part(1.0)
    ensures w + 2.0 * Part(w) <= Times(w, m)
  {
    assert w * (1.0 + 2.0 * Part(1.0)) == w + 2.0 * Part(w);
  }

  lemma {:induction false} NextIsReached(w: real)
    requires w >= 1.0 / 256.0 && Positive(w) == w
    ensures Positive(w + 2.0 * Part(w)) >= w + Part(w)
    decreases (w * 128.0).Floor
  {
    if w < 1.0 / 128.0 {
      NextSmallIsReached(w, Nearest(w * TWO_60 as real));
    } else {
      Halved(w);
      Halved(w + 2.0 * Part(w));
      NextIsReached(w / 2.0);
      assert (w + 2.0 * Part(w)) / 2.0 == w / 2.0 + 2.0 * Part(w / 2.0);
    }
  }

  lemma NextSmallIsReached(w: real, n: int)
    requires 1.0 / 256.0 <= w < 1.0 / 128.0 && w * TWO_60 as real == n as real
    ensures Positive(w + 2.0 * Part(w)) >= w + Part(w)
  {
    var x := w + 2.0 * Part(w);
    assert TWO_52 <= n < TWO_53;
    if x < 1.0 / 128.0 {
      assert x * TWO_60 as real >= (n + 1) as real;
      NearestIsMonotone((n + 1) as real, x * TWO_60 as real);
      assert Positive(x) * TWO_60 as real >= (n + 1) as real;
    } else {
      NotSmallStays(x);
    }
  }

  // A factor below 1 lowers every represented number.
  lemma FactorLowers(w: real, m: real)
    requires w >= 1.0 && Rounded(w) == w && 0.0 <= m < 1.0 && IsFactor(m)
    ensures 0.0 <= Rounded(Times(w, m)) < w
  {
    Smaller(w, m);
    RoundedIsMonotone(Times(w, m), w - Part(w));
    RoundedIsMonotone(0.0, Times(w, m));
    RelativeError(w - Part(w));
  }

  lemma Smaller(w: real, m: real)
    requires w >= 0.0 && 0.0 <= m <= 1.0 - Part(1.0)
    ensures 0.0 <= Times(w, m) <= w - Part(w)
  {
    assert w * (1.0 - Part(1.0)) == w - Part(w);
  }
}
