// Repeatedly multiplying an integer by a float64 and converting the product back.
module Scaling {
  import opened Float64

  // Go's conversion of a floating-point number to an integer.
  function Trunc(x: real): int {
    if x >= 0.0 then x.Floor else -((-x).Floor)
  }

  // int32(float64(v) * m) and int64(float64(v) * m), as long as the type holds it.
  function Scaled(v: int, m: real): int {
    Trunc(Rounded(Times(Rounded(v as real), m)))
  }

  function Iterated(v: int, m: real, k: nat): int {
    if k == 0 then v else Scaled(Iterated(v, m, k - 1), m)
  }

  function Pow(m: real, k: nat): real {
    if k == 0 then 1.0 else m * Pow(m, k - 1)
  }

  // 1 + m + ... + m^(k-1)
  function Geometric(m: real, k: nat): real {
    if k == 0 then 0.0 else m * Geometric(m, k - 1) + 1.0
  }

  lemma MulMono(m: real, x: real, y: real)
    requires m >= 0.0 && x <= y
    ensures m * x <= m * y
  {
  }

  lemma TruncBounds(x: real)
    requires x >= 0.0
    ensures x - 1.0 < Trunc(x) as real <= x && Trunc(x) >= 0
  {
  }

  lemma TruncIsMonotone(x: real, y: real)
    requires 0.0 <= x <= y
    ensures 0 <= Trunc(x) <= Trunc(y)
  {
  }

  // --- Integers that float64 represents ---

  predicate Exactly(v: int) {
    Represented(v as real)
  }

  // Among them all numbers of 32 bits, and of up to 53.
  lemma SmallIsExact(v: int)
    requires -(TWO_53 as int) <= v <= TWO_53
    ensures Exactly(v)
  {
    IntegersAreRepresented(v);
  }

  lemma TimesNonNegative(x: real, m: real)
    requires x >= 0.0 && m >= 0.0
    ensures Times(x, m) >= 0.0
  {
  }

  lemma RoundedNonNegative(x: real)
    requires x >= 0.0
    ensures Rounded(x) >= 0.0
  {
    RoundedIsMonotone(0.0, x);
  }

  lemma ScaledNonNegative(v: int, m: real)
    requires v >= 0 && m >= 0.0
    ensures Scaled(v, m) >= 0 && Times(Rounded(v as real), m) >= 0.0
  {
    RoundedNonNegative(v as real);
    TimesNonNegative(Rounded(v as real), m);
    RoundedNonNegative(Times(Rounded(v as real), m));
    TruncBounds(Rounded(Times(Rounded(v as real), m)));
  }

  // The product of a represented number.
  lemma ScaledExactly(v: int, m: real)
    requires v >= 0 && Exactly(v) && m >= 0.0
    ensures Scaled(v, m) == Trunc(Rounded(Times(v as real, m)))
    ensures Times(v as real, m) >= 0.0 && Rounded(Times(v as real, m)) >= 0.0
    ensures Scaled(v, m) as real <= Rounded(Times(v as real, m)) < (Scaled(v, m) + 1) as real
  {
    TimesNonNegative(v as real, m);
    RoundedNonNegative(Times(v as real, m));
    TruncBounds(Rounded(Times(v as real, m)));
  }

  // ... and every product.
  lemma ScaledIsExact(v: int, m: real)
    requires v >= 0 && m >= 0.0
    ensures Exactly(Scaled(v, m))
  {
    ScaledNonNegative(v, m);
    ConvertedIsExact(Times(Rounded(v as real), m));
  }

  lemma ConvertedIsExact(y: real)
    requires y >= 0.0
    ensures Exactly(Trunc(Rounded(y)))
  {
    var x := Rounded(y);
    RoundedIsMonotone(0.0, y);
    TruncBounds(x);
    if Trunc(x) <= TWO_53 {
      SmallIsExact(Trunc(x));
    } else {
      NotRoundedUpFar(y);
      LargeAreIntegers(y);
      RoundedIsRepresented(y);
    }
  }

  lemma NotRoundedUpFar(y: real)
    requires Rounded(y) > TWO_52 as real
    ensures y >= TWO_52 as real
  {
    if y < TWO_52 as real {
      RoundedIsMonotone(y, TWO_52 as real);
      IntegersAreRepresented(TWO_52);
    }
  }

  lemma {:induction false} IteratedNonNegative(v: int, m: real, k: nat)
    requires v >= 0 && m >= 0.0
    ensures Iterated(v, m, k) >= 0
    ensures k > 0 || Exactly(v) ==> Exactly(Iterated(v, m, k))
  {
    if k == 0 {
    } else {
      IteratedNonNegative(v, m, k - 1);
      ScaledNonNegative(Iterated(v, m, k - 1), m);
      ScaledIsExact(Iterated(v, m, k - 1), m);
    }
  }

  lemma ZeroScaled(m: real)
    ensures Scaled(0, m) == 0
  {
    IntegersAreRepresented(0);
    assert Times(0.0, m) == 0.0;
  }

  // --- One step ---

  lemma TimesGrows(x: real, m: real)
    requires x >= 0.0 && m >= 1.0
    ensures Times(x, m) >= x
  {
    MulMono(x, 1.0, m);
  }

  // With a factor of at least 1 nothing shrinks, in spite of the truncation.
  lemma ScaledGrows(v: int, m: real)
    requires v >= 0 && Exactly(v) && m >= 1.0
    ensures Scaled(v, m) >= v
  {
    var x := v as real;
    ScaledExactly(v, m);
    TimesGrows(x, m);
    RoundedIsMonotone(x, Times(x, m));
    TruncIsMonotone(x, Rounded(Times(x, m)));
  }

  lemma ScaledByOne(v: int)
    requires Exactly(v)
    ensures Scaled(v, 1.0) == v
  {
    assert Times(v as real, 1.0) == v as real;
  }

  // With one below 1 everything does.
  lemma ScaledShrinks(v: int, m: real)
    requires v > 0 && Exactly(v) && 0.0 <= m < 1.0 && IsFactor(m)
    ensures 0 <= Scaled(v, m) < v
  {
    ScaledExactly(v, m);
    FactorLowers(v as real, m);
  }

  lemma TruncAtLeast(x: real, i: nat)
    requires x >= i as real
    ensures Trunc(x) >= i
  {
  }

  // A factor that raises one value raises every larger one: each is one larger than
  // the one before, and its product by more than one.
  lemma {:induction false} RiseGoesOn(v: int, m: real, w: int)
    requires 0 < v <= w < TWO_53 && m > 1.0 && Rounded(Times(v as real, m)) >= (v + 1) as real
    ensures Rounded(Times(w as real, m)) >= (w + 1) as real
    decreases w - v
  {
    if v == w {
    } else {
      RiseGoesOn(v, m, w - 1);
      TimesNext(w - 1, m);
      CarryIsKept(Times((w - 1) as real, m), Times(w as real, m), w);
    }
  }

  lemma TimesNext(w: nat, m: real)
    requires m > 1.0
    ensures Times(w as real, m) >= 0.0 && Times((w + 1) as real, m) > Times(w as real, m) + 1.0
  {
    TimesNonNegative(w as real, m);
    assert Times((w + 1) as real, m) == Times(w as real, m) + m;
  }

  lemma StepRises(v: int, m: real, w: int)
    requires 0 < v <= w && Exactly(v) && Exactly(w) && m >= 0.0 && IsFactor(m) && Scaled(v, m) > v
    ensures m > 1.0 && Scaled(w, m) >= w + 1
  {
    RiseNeedsFactor(v, m);
    ScaledExactly(v, m);
    ScaledExactly(w, m);
    if w < TWO_53 {
      RiseGoesOn(v, m, w);
    } else {
      LargeRises(w, m);
    }
    TruncAtLeast(Rounded(Times(w as real, m)), w + 1);
  }

  lemma LargeRises(w: int, m: real)
    requires w >= TWO_53 && Exactly(w) && m > 1.0 && IsFactor(m)
    ensures Rounded(Times(w as real, m)) >= (w + 1) as real
  {
    FactorRaises(w as real, m);
    assert Part(w as real) >= 1.0;
  }

  lemma RiseNeedsFactor(v: int, m: real)
    requires v >= 0 && Exactly(v) && m >= 0.0 && IsFactor(m) && Scaled(v, m) > v
    ensures m > 1.0 && v > 0
  {
    ZeroScaled(m);
    if m == 1.0 {
      ScaledByOne(v);
    } else if m < 1.0 && v > 0 {
      ScaledShrinks(v, m);
    }
  }

  // Which factors leave a value as it is.
  lemma UnchangedIff(v: int, m: real)
    requires v > 0 && Exactly(v) && m > 0.0 && IsFactor(m)
    ensures Scaled(v, m) == v <==> m >= 1.0 && Rounded(Times(v as real, m)) < (v + 1) as real
  {
    if m >= 1.0 {
      ScaledGrows(v, m);
      ScaledExactly(v, m);
    } else {
      ScaledShrinks(v, m);
    }
  }

  // --- Bounds ---

  lemma {:induction false} GeometricClosed(m: real, k: nat)
    ensures (m - 1.0) * Geometric(m, k) == Pow(m, k) - 1.0
  {
    if k == 0 {
    } else {
      GeometricClosed(m, k - 1);
      assert (m - 1.0) * (m * Geometric(m, k - 1) + 1.0) == m * ((m - 1.0) * Geometric(m, k - 1)) + (m - 1.0);
    }
  }

  // The value without rounding, and with one subtracted at every step.
  function Exact(v: int, m: real, k: nat): real {
    if k == 0 then v as real else Times(Exact(v, m, k - 1), m)
  }

  function Lowest(v: int, m: real, k: nat): real {
    if k == 0 then v as real else Times(Lowest(v, m, k - 1), m) - 1.0
  }

  // The factors between which rounding leaves the product.
  function High(m: real): real {
    m + Part(m)
  }

  function Low(m: real): real {
    m - Part(m)
  }

  lemma ScaledBounds(w: int, m: real)
    requires w >= 0 && Exactly(w) && m >= 0.0
    ensures Times(w as real, Low(m)) - 1.0 <= Scaled(w, m) as real <= Times(w as real, High(m))
  {
    var x := Times(w as real, m);
    ScaledExactly(w, m);
    PartOfProduct(w as real, m);
    if x >= 1.0 / 256.0 {
      RelativeError(x);
    } else {
      SmallStaysSmall(x);
    }
  }

  lemma PartOfProduct(x: real, m: real)
    ensures Times(x, High(m)) == Times(x, m) + Part(Times(x, m))
    ensures Times(x, Low(m)) == Times(x, m) - Part(Times(x, m))
  {
    assert x * Part(m) == Part(Times(x, m));
  }

  // --- Comparing two iterations step by step ---

  function Repeat<T>(f: T -> T, x: T, k: nat): T {
    if k == 0 then x else f(Repeat(f, x, k - 1))
  }

  ghost predicate AboveAt(f: int -> int, g: real -> real, w: int, y: real) {
    w >= 0 && Exactly(w) && y <= w as real ==> f(w) >= 0 && Exactly(f(w)) && g(y) <= f(w) as real
  }

  ghost predicate BelowAt(f: int -> int, g: real -> real, w: int, y: real) {
    w >= 0 && Exactly(w) && w as real <= y ==> f(w) >= 0 && Exactly(f(w)) && f(w) as real <= g(y)
  }

  lemma {:induction false} RepeatAbove(f: int -> int, g: real -> real, v: int, x: real, k: nat)
    requires v >= 0 && Exactly(v) && x <= v as real && forall w, y :: AboveAt(f, g, w, y)
    ensures Repeat(f, v, k) >= 0 && Exactly(Repeat(f, v, k)) && Repeat(g, x, k) <= Repeat(f, v, k) as real
  {
    if k == 0 {
    } else {
      RepeatAbove(f, g, v, x, k - 1);
      var w, y := Repeat(f, v, k - 1), Repeat(g, x, k - 1);
      assert AboveAt(f, g, w, y);
    }
  }

  lemma {:induction false} RepeatBelow(f: int -> int, g: real -> real, v: int, x: real, k: nat)
    requires v >= 0 && Exactly(v) && v as real <= x && forall w, y :: BelowAt(f, g, w, y)
    ensures Repeat(f, v, k) >= 0 && Exactly(Repeat(f, v, k)) && Repeat(f, v, k) as real <= Repeat(g, x, k)
  {
    if k == 0 {
    } else {
      RepeatBelow(f, g, v, x, k - 1);
      var w, y := Repeat(f, v, k - 1), Repeat(g, x, k - 1);
      assert BelowAt(f, g, w, y);
    }
  }

  function Scaler(m: real): int -> int {
    w => Scaled(w, m)
  }

  function Upper(m: real): real -> real {
    x => Times(x, m)
  }

  function Lower(m: real): real -> real {
    x => Times(x, m) - 1.0
  }

  lemma {:induction false} IteratedIsRepeat(v: int, m: real, k: nat)
    ensures Iterated(v, m, k) == Repeat(Scaler(m), v, k)
  {
    if k == 0 {
    } else {
      IteratedIsRepeat(v, m, k - 1);
    }
  }

  lemma {:induction false} AsRepeats(v: int, m: real, k: nat)
    ensures Exact(v, m, k) == Repeat(Upper(m), v as real, k)
    ensures Lowest(v, m, k) == Repeat(Lower(m), v as real, k)
  {
    if k == 0 {
    } else {
      AsRepeats(v, m, k - 1);
    }
  }

  lemma TimesIsMonotone(x: real, y: real, m: real)
    requires x <= y && m >= 0.0
    ensures Times(x, m) <= Times(y, m)
  {
  }

  lemma ScaledAbove(w: int, y: real, m: real)
    requires w >= 0 && Exactly(w) && m >= 0.0 && y <= w as real
    ensures Lower(Low(m))(y) <= Scaler(m)(w) as real
  {
    ScaledBounds(w, m);
    TimesIsMonotone(y, w as real, Low(m));
  }

  lemma ScaledBelow(w: int, y: real, m: real)
    requires w >= 0 && Exactly(w) && m >= 0.0 && w as real <= y
    ensures Scaler(m)(w) as real <= Upper(High(m))(y)
  {
    ScaledBounds(w, m);
    TimesIsMonotone(w as real, y, High(m));
  }

  lemma ScalerStaysAbove(m: real)
    requires m >= 0.0
    ensures forall w, y :: AboveAt(Scaler(m), Lower(Low(m)), w, y)
  {
    var f, g := Scaler(m), Lower(Low(m));
    forall w, y ensures AboveAt(f, g, w, y) {
      if w >= 0 && Exactly(w) && y <= w as real {
        ScaledAbove(w, y, m);
        ScaledNonNegative(w, m);
        ScaledIsExact(w, m);
      }
    }
  }

  lemma ScalerStaysBelow(m: real)
    requires m >= 0.0
    ensures forall w, y :: BelowAt(Scaler(m), Upper(High(m)), w, y)
  {
    var f, g := Scaler(m), Upper(High(m));
    forall w, y ensures BelowAt(f, g, w, y) {
      if w >= 0 && Exactly(w) && w as real <= y {
        ScaledBelow(w, y, m);
        ScaledNonNegative(w, m);
        ScaledIsExact(w, m);
      }
    }
  }

  lemma IteratedBounds(v: int, m: real, k: nat)
    requires v >= 0 && Exactly(v) && m >= 0.0
    ensures Lowest(v, Low(m), k) <= Iterated(v, m, k) as real <= Exact(v, High(m), k)
  {
    ScalerStaysAbove(m);
    ScalerStaysBelow(m);
    IteratedIsRepeat(v, m, k);
    AsRepeats(v, Low(m), k);
    AsRepeats(v, High(m), k);
    RepeatAbove(Scaler(m), Lower(Low(m)), v, v as real, k);
    RepeatBelow(Scaler(m), Upper(High(m)), v, v as real, k);
  }

  lemma TimesPower(p: real, x: real, m: real)
    ensures Times(p * x, m) == m * p * x
  {
  }

  lemma {:induction false} ExactIsPower(v: int, m: real, k: nat)
    ensures Exact(v, m, k) == Pow(m, k) * v as real == UpperBound(v, m, k)
  {
    if k == 0 {
    } else {
      ExactIsPower(v, m, k - 1);
      TimesPower(Pow(m, k - 1), v as real, m);
    }
  }

  lemma TimesDifference(x: real, y: real, m: real)
    ensures Times(x - y, m) == Times(x, m) - m * y
  {
  }

  lemma {:induction false} LowestIsExactLessSum(v: int, m: real, k: nat)
    ensures Lowest(v, m, k) == Exact(v, m, k) - Geometric(m, k)
  {
    if k == 0 {
    } else {
      LowestIsExactLessSum(v, m, k - 1);
      TimesDifference(Exact(v, m, k - 1), Geometric(m, k - 1), m);
    }
  }

  // At most what the upper factor makes of v without rounding, and at least what the
  // lower one does, less what k truncations take: l^k*v - (l^k - 1)/(l - 1).
  ghost predicate NearExact(v: int, m: real, k: nat, w: int)
    requires Low(m) > 1.0
  {
    LowerBound(v, Low(m), k) <= w as real <= UpperBound(v, High(m), k)
  }

  function UpperBound(v: int, h: real, k: nat): real {
    Pow(h, k) * v as real
  }

  function LowerBound(v: int, l: real, k: nat): real
    requires l > 1.0
  {
    Pow(l, k) * v as real - (Pow(l, k) - 1.0) / (l - 1.0)
  }

  lemma LowestIsBound(v: int, l: real, k: nat)
    requires l > 1.0
    ensures Lowest(v, l, k) == LowerBound(v, l, k)
  {
    LowestIsExactLessSum(v, l, k);
    ExactIsPower(v, l, k);
    GeometricClosed(l, k);
    DivideOut(l - 1.0, Geometric(l, k), Pow(l, k) - 1.0);
  }

  lemma RepeatedScaling(v: int, m: real, k: nat)
    requires v >= 0 && Exactly(v) && m > 1.0 && IsFactor(m)
    ensures Low(m) > 1.0 && NearExact(v, m, k, Iterated(v, m, k))
  {
    LowIsAboveOne(m);
    IteratedBounds(v, m, k);
    LowestIsBound(v, Low(m), k);
    ExactIsPower(v, High(m), k);
  }

  lemma LowIsAboveOne(m: real)
    requires m > 1.0 && IsFactor(m)
    ensures Low(m) > 1.0
  {
  }

  lemma DivideOut(d: real, g: real, p: real)
    requires d > 0.0 && d * g == p
    ensures g == p / d
  {
  }

  lemma {:induction false} UnitScaling(v: int, k: nat)
    requires Exactly(v)
    ensures Iterated(v, 1.0, k) == v
  {
    if k == 0 {
    } else {
      UnitScaling(v, k - 1);
      ScaledByOne(v);
    }
  }

  lemma {:induction false} IteratedGrows(v: int, m: real, j: nat, k: nat)
    requires v >= 0 && m >= 1.0 && j <= k && (j > 0 || Exactly(v))
    ensures Iterated(v, m, j) <= Iterated(v, m, k)
    decreases k
  {
    if j == k {
    } else {
      IteratedGrows(v, m, j, k - 1);
      IteratedNonNegative(v, m, k - 1);
      ScaledGrows(Iterated(v, m, k - 1), m);
    }
  }

  // --- Fields of the program's integer types ---

  const MAX_INT32 := 0x7FFF_FFFF
  const MAX_INT64 := 0x7FFF_FFFF_FFFF_FFFF

  // i is a number of the type whose largest one is max.
  predicate Within(i: int, max: int) {
    -max - 1 <= i <= max
  }

  // after is what multiplying the field in place may leave there: converting a
  // product that does not fit yields some number of the type.
  predicate Multiplied(before: int, m: real, max: int, after: int) {
    Within(after, max) && (Within(Scaled(before, m), max) ==> after == Scaled(before, m))
  }

  // The field's values in a run of repetitions.
  ghost predicate FieldRun(values: seq<int>, m: real, max: int) {
    forall i :: 0 <= i < |values| - 1 ==> Multiplied(values[i], m, max, values[i + 1])
  }

  // As long as no product overflows, the values are the iterated ones.
  lemma {:induction false} RunWhileFits(values: seq<int>, m: real, max: int, k: nat)
    requires FieldRun(values, m, max) && k < |values|
    requires forall j: nat :: j <= k ==> Within(Iterated(values[0], m, j), max)
    ensures values[k] == Iterated(values[0], m, k)
  {
    if k == 0 {
    } else {
      RunWhileFits(values, m, max, k - 1);
      assert Multiplied(values[k - 1], m, max, values[k]);
      assert Within(Iterated(values[0], m, k), max);
    }
  }

  // Without overflow, a multiplier of at least 1 never lets a field shrink, in
  // spite of the truncation, and one above 1 keeps it close to the exact product.
  lemma GrowthWhileFits(values: seq<int>, m: real, max: int, j: nat, k: nat)
    requires FieldRun(values, m, max) && j <= k < |values| && values[0] >= 0 && Exactly(values[0])
    requires m >= 1.0 && IsFactor(m)
    requires forall i: nat :: i <= k ==> Within(Iterated(values[0], m, i), max)
    ensures 0 <= values[0] <= values[j] <= values[k]
    ensures m == 1.0 ==> values[k] == values[0]
    ensures m > 1.0 ==> Low(m) > 1.0 && NearExact(values[0], m, k, values[k])
  {
    RunWhileFits(values, m, max, j);
    RunWhileFits(values, m, max, k);
    IteratedGrows(values[0], m, 0, j);
    IteratedGrows(values[0], m, 0, k);
    IteratedGrowsOn(values[0], m, j, k);
    if m > 1.0 {
      RepeatedScaling(values[0], m, k);
    } else {
      UnitScaling(values[0], k);
    }
  }

  // A positive number stays positive, also one that float64 does not represent.
  lemma {:induction false} IteratedPositive(v: int, m: real, k: nat)
    requires v > 0 && m >= 1.0
    ensures Iterated(v, m, k) > 0
  {
    if k == 0 {
    } else {
      IteratedPositive(v, m, k - 1);
      ScaledPositive(Iterated(v, m, k - 1), m);
    }
  }

  lemma ScaledPositive(v: int, m: real)
    requires v > 0 && m >= 1.0
    ensures Scaled(v, m) > 0
  {
    SmallIsExact(1);
    RoundedIsMonotone(1.0, v as real);
    TimesGrows(Rounded(v as real), m);
    RoundedIsMonotone(1.0, Times(Rounded(v as real), m));
    TruncAtLeast(Rounded(Times(Rounded(v as real), m)), 1);
  }

  lemma IteratedGrowsOn(v: int, m: real, j: nat, k: nat)
    requires v >= 0 && m >= 1.0 && j <= k && Exactly(v)
    ensures Iterated(v, m, j) <= Iterated(v, m, k)
  {
    IteratedGrows(v, m, j, k);
  }

  // --- Which fields repetition lets live ---

  // One product that is always possible, and the worst: overflow to -1.
  function Worst(v: int, m: real, max: int): int {
    if Within(Scaled(v, m), max) then Scaled(v, m) else -1
  }

  function WorstAfter(v: int, m: real, max: int, k: nat): int {
    if k == 0 then v else Worst(WorstAfter(v, m, max, k - 1), m, max)
  }

  function WorstOf(m: real, max: int): int -> int {
    v => Worst(v, m, max)
  }

  lemma {:induction false} WorstIsRepeat(v: int, m: real, max: int, k: nat)
    ensures WorstAfter(v, m, max, k) == Repeat(WorstOf(m, max), v, k)
  {
    if k == 0 {
    } else {
      WorstIsRepeat(v, m, max, k - 1);
    }
  }

  // A value that rises keeps rising until it overflows.
  lemma {:induction false} RiseOverflows(u: int, v: int, m: real, max: int, k: nat) returns (j: nat)
    requires 0 < u <= WorstAfter(v, m, max, k) <= max && Exactly(u) && Exactly(WorstAfter(v, m, max, k))
    requires m >= 0.0 && IsFactor(m) && Scaled(u, m) > u
    ensures WorstAfter(v, m, max, j) == -1
    decreases max - WorstAfter(v, m, max, k)
  {
    var w := WorstAfter(v, m, max, k);
    StepRises(u, m, w);
    if Scaled(w, m) > max {
      j := k + 1;
    } else {
      ScaledIsExact(w, m);
      j := RiseOverflows(u, v, m, max, k + 1);
    }
  }

  // A value that falls reaches zero.
  lemma {:induction false} FallVanishes(v: int, m: real, max: int, k: nat) returns (j: nat)
    requires 0 < WorstAfter(v, m, max, k) <= max && Exactly(WorstAfter(v, m, max, k))
    requires 0.0 <= m < 1.0 && IsFactor(m)
    ensures WorstAfter(v, m, max, j) == 0
    decreases WorstAfter(v, m, max, k)
  {
    var w := WorstAfter(v, m, max, k);
    ScaledShrinks(w, m);
    ScaledIsExact(w, m);
    assert WorstAfter(v, m, max, k + 1) == Scaled(w, m);
    if Scaled(w, m) == 0 {
      j := k + 1;
    } else {
      j := FallVanishes(v, m, max, k + 1);
    }
  }

  // A positive value that a repetition changes does not stay positive.
  lemma ChangeIsFatal(v: int, m: real, max: int, k: nat) returns (j: nat)
    requires 0 < WorstAfter(v, m, max, k) <= max && Exactly(WorstAfter(v, m, max, k))
    requires m >= 0.0 && IsFactor(m) && Scaled(WorstAfter(v, m, max, k), m) != WorstAfter(v, m, max, k)
    ensures WorstAfter(v, m, max, j) <= 0
  {
    var w := WorstAfter(v, m, max, k);
    if Scaled(w, m) > w {
      j := RiseOverflows(w, v, m, max, k);
    } else {
      if m >= 1.0 {
        ScaledGrows(w, m);
      }
      j := FallVanishes(v, m, max, k);
    }
  }

  // The first repetition leaves a positive number that fits and that the second one
  // does not change.
  predicate Settles(v: int, m: real, max: int) {
    0 < Scaled(v, m) <= max && Scaled(Scaled(v, m), m) == Scaled(v, m)
  }

  // The first leaves a number that fits and that the second one does not raise.
  predicate StopsRising(v: int, m: real, max: int) {
    Scaled(v, m) <= max && Scaled(Scaled(v, m), m) <= Scaled(v, m)
  }

  lemma UnsettledIsFatal(v: int, m: real, max: int) returns (k: nat)
    requires 0 < v <= max && m >= 0.0 && IsFactor(m) && !Settles(v, m, max)
    ensures WorstAfter(v, m, max, k) <= 0
  {
    var u := Scaled(v, m);
    ScaledNonNegative(v, m);
    ScaledIsExact(v, m);
    assert WorstAfter(v, m, max, 1) == Worst(WorstAfter(v, m, max, 0), m, max) == Worst(v, m, max);
    if 0 < u <= max {
      k := ChangeIsFatal(v, m, max, 1);
    } else {
      k := 1;
    }
  }

  lemma RisingIsFatal(v: int, m: real, max: int) returns (k: nat)
    requires 0 <= v <= max && m >= 0.0 && IsFactor(m) && !StopsRising(v, m, max)
    ensures WorstAfter(v, m, max, k) < 0
  {
    var u := Scaled(v, m);
    ScaledNonNegative(v, m);
    ScaledIsExact(v, m);
    assert WorstAfter(v, m, max, 1) == Worst(WorstAfter(v, m, max, 0), m, max) == Worst(v, m, max);
    if u <= max {
      RiseNeedsFactor(u, m);
      k := RiseOverflows(u, v, m, max, 1);
    } else {
      k := 1;
    }
  }

  // What a settled field may hold: what it held at first, or what the first
  // repetition left.
  predicate Kept(v: int, m: real, w: int) {
    w == v || w == Scaled(v, m)
  }

  lemma SettledIsKept(v: int, m: real, max: int, w: int, w': int)
    requires Settles(v, m, max) && Kept(v, m, w) && Multiplied(w, m, max, w')
    ensures Kept(v, m, w') && w' > 0
  {
  }

  predicate KeptLow(v: int, m: real, w: int) {
    w == v || (0 <= w <= Scaled(v, m) && Exactly(w))
  }

  lemma StoppedIsKept(v: int, m: real, max: int, w: int, w': int)
    requires 0 <= v <= max && m >= 0.0 && IsFactor(m) && StopsRising(v, m, max)
    requires KeptLow(v, m, w) && Multiplied(w, m, max, w')
    ensures KeptLow(v, m, w') && w' >= 0
  {
    var u := Scaled(v, m);
    ScaledNonNegative(v, m);
    ScaledIsExact(v, m);
    if w != v {
      ScaledNonNegative(w, m);
      ScaledIsExact(w, m);
      if Scaled(w, m) > w {
        RiseNeedsFactor(w, m);
        StepRises(w, m, u);
      }
    }
  }

  lemma {:induction false} WorstIsRun(v: int, m: real, max: int, k: nat, values: seq<int>)
    requires 0 <= max && |values| == k + 1 && forall i :: 0 <= i <= k ==> values[i] == WorstAfter(v, m, max, i)
    ensures FieldRun(values, m, max)
  {
    forall i | 0 <= i < |values| - 1 ensures Multiplied(values[i], m, max, values[i + 1]) {
      assert WorstAfter(v, m, max, i + 1) == Worst(WorstAfter(v, m, max, i), m, max);
    }
  }

  ghost predicate StaysPositive(v: int, m: real, max: int) {
    forall values :: |values| > 0 && values[0] == v && FieldRun(values, m, max) ==> values[|values| - 1] > 0
  }

  // A positive field stays positive in every run of repetitions exactly when it
  // settles: a value that still shrinks goes on to zero, one that still grows goes on
  // until it overflows.
  lemma StaysPositiveIffSettles(v: int, m: real, max: int)
    requires 0 < v <= max && m >= 0.0 && IsFactor(m)
    ensures StaysPositive(v, m, max) <==> Settles(v, m, max)
  {
    if Settles(v, m, max) {
      forall values | |values| > 0 && values[0] == v && FieldRun(values, m, max) ensures values[|values| - 1] > 0 {
        SettledRun(values, m, max, |values| - 1);
      }
    } else {
      var k := UnsettledIsFatal(v, m, max);
      var values := seq(k + 1, i requires 0 <= i <= k => WorstAfter(v, m, max, i));
      WorstIsRun(v, m, max, k, values);
      assert values[0] == v && values[|values| - 1] <= 0;
    }
  }

  lemma {:induction false} SettledRun(values: seq<int>, m: real, max: int, k: nat)
    requires k < |values| && FieldRun(values, m, max) && values[0] > 0 && Settles(values[0], m, max)
    ensures Kept(values[0], m, values[k]) && values[k] > 0
  {
    if k == 0 {
    } else {
      SettledRun(values, m, max, k - 1);
      assert Multiplied(values[k - 1], m, max, values[k]);
      SettledIsKept(values[0], m, max, values[k - 1], values[k]);
    }
  }

  // For a value that float64 represents, such as every number of 32 bits, that is
  // whether the first repetition leaves it as it is.
  lemma SettlesIffUnchanged(v: int, m: real, max: int)
    requires 0 < v <= max && Exactly(v) && m >= 0.0 && IsFactor(m)
    ensures Settles(v, m, max) <==> Scaled(v, m) == v
  {
    var u := Scaled(v, m);
    ScaledIsExact(v, m);
    if u > v {
      StepRises(v, m, u);
    } else if 0 < u < v {
      if m >= 1.0 {
        ScaledGrows(v, m);
      }
      ScaledShrinks(u, m);
    }
  }

  lemma ScaledIsOdd(v: int, m: real)
    ensures Scaled(-v, m) == -Scaled(v, m)
  {
    assert Rounded((-v) as real) == -Rounded(v as real);
    TimesIsOdd(Rounded(v as real), m);
    assert Rounded(-Times(Rounded(v as real), m)) == -Rounded(Times(Rounded(v as real), m));
  }

  lemma TimesIsOdd(x: real, m: real)
    ensures Times(-x, m) == -Times(x, m)
  {
  }

  // A factor of 1 keeps exactly what float64 represents.
  lemma OneKeepsIff(v: int)
    ensures Scaled(v, 1.0) == v <==> Exactly(v)
  {
    if v >= 0 {
      ScaledIsExact(v, 1.0);
    } else {
      ScaledIsExact(-v, 1.0);
      ScaledIsOdd(-v, 1.0);
    }
    if Exactly(v) {
      ScaledByOne(v);
    }
  }

  lemma ScaledByZero(v: int)
    ensures Scaled(v, 0.0) == 0
  {
    assert Times(Rounded(v as real), 0.0) == 0.0;
    IntegersAreRepresented(0);
  }

  // Five times the float64 nearest to 1.2 is below 6, but is rounded to it, and so
  // the value grows where the exact product would leave it as it is.
  lemma FiveGrows()
    ensures var m := 5404319552844595.0 / 4503599627370496.0;
            IsFactor(m) && 5.0 * m < 6.0 && Scaled(5, m) == 6
  {
    var m := 5404319552844595.0 / 4503599627370496.0;
    SmallIsExact(5);
    ScaledExactly(5, m);
    MarginOfSix();
    Pow2Of60();
    RoundsUpTo(Times(5.0, m), 6.0, 6, 60);
    RoundedIsMonotone(Times(5.0, m), 6.0);
    SmallIsExact(6);
  }

  lemma MarginOfSix()
    ensures Margin(6.0) == 1.0 / 2251799813685248.0
  {
    assert Margin(6.0 / 1024.0) == 0.5 / TWO_60 as real;
    assert Margin(6.0 / 128.0) == 8.0 * Margin(6.0 / 1024.0);
    assert Margin(6.0 / 16.0) == 8.0 * Margin(6.0 / 128.0);
    assert Margin(6.0 / 2.0) == 8.0 * Margin(6.0 / 16.0);
  }
}
