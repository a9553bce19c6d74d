/** The fixed-point reciprocal: a linear first guess and three Newton steps on 32-bit words. */
module Reciprocal {
  import opened Words
  import opened FixedPoint

  // Two integer bits: one is 2^29.
  const F2_ONE: int := 0x2000_0000
  const C48_OVER_17: int := 1515870810
  const C32_OVER_17: int := 1010580540
  // The scale of a product of a 31-bit and a 29-bit fraction.
  const UNIT: int := 0x1000_0000_0000_0000

  /** 48/17 and 32/17, each rounded to 29 bits. */
  lemma ConstantsNearest()
    ensures -17 <= 2 * (17 * C48_OVER_17 - 48 * F2_ONE) <= 17 && -17 <= 2 * (17 * C32_OVER_17 - 32 * F2_ONE) <= 17
  {
  }

  // ----- the computation -----

  function FirstGuess(hd: int): Int32 {
    S32(C48_OVER_17 + Srdhm(hd, -C32_OVER_17))
  }

  function NewtonStep(hd: int, x: int): Int32 {
    var oneMinus := S32(F2_ONE - Srdhm(hd, x));
    S32(x + Rescale(Srdhm(x, oneMinus), 4, 2))
  }

  function NewtonSteps(hd: int, x: Int32, n: nat): Int32 {
    if n == 0 then x else NewtonStep(hd, NewtonSteps(hd, x, n - 1))
  }

  function HalfDenominator(a: int): Int32 {
    RoundingHalfSum(a, MAX32)
  }

  method OneOverOnePlusX(a: int) returns (r: Int32)
    ensures r == Result(a)
  {
    hide Srdhm, Rescale, S32, RoundingHalfSum;
    var hd := RoundingHalfSum(a, MAX32);
    var x: Int32 := S32(C48_OVER_17 + Srdhm(hd, -C32_OVER_17));
    for i := 0 to 3
      invariant x == NewtonSteps(hd, FirstGuess(hd), i)
    {
      var halfDenominatorTimesX := Srdhm(hd, x);
      var oneMinus := S32(F2_ONE - halfDenominatorTimesX);
      x := S32(x + Rescale(Srdhm(x, oneMinus), 4, 2));
    }
    r := Rescale(x, 1, 0);
  }

  // ----- how close each step comes -----

  /** The denominators that occur: one half up to one, as a 31-bit fraction. */
  predicate Denominator(hd: int) {
    0x4000_0000 <= hd <= MAX32
  }

  /** How far `hd * x` is from one, in units of 2^-60. */
  function Residual(hd: int, x: int): int {
    UNIT - hd * x
  }

  predicate Within(r: int, bound: int) {
    -bound <= r <= bound
  }

  lemma HalfDenominatorExact(a: Int32)
    requires a >= 0
    ensures HalfDenominator(a) == (a + TWO31) / 2 && Denominator(HalfDenominator(a))
  {
    HalfSumExact(a, MAX32);
    var s: int := a + MAX32;
    DivModUnique(2 * s + 2, 4, (s + 1) / 2, 2 * s + 2 - 4 * ((s + 1) / 2));
  }

  // One seventeenth of a unit, rounded up: the largest error of the linear guess.
  const B0: int := 505290280 * 0x800_0000

  lemma Square(t: int, m: int)
    requires Within(t, m)
    ensures 0 <= t * t <= m * m
  {
    MulMono(Abs(t), m, Abs(t));
    MulMono(Abs(t), m, m);
    assert t * t == Abs(t) * Abs(t);
  }

  /** The guess is off by at most a seventeenth, at both ends and in the middle of the range alike. */
  lemma FirstResidual(hd: int)
    requires Denominator(hd)
    ensures FirstGuess(hd) == C48_OVER_17 + Srdhm(hd, -C32_OVER_17) && Within(Residual(hd, FirstGuess(hd)), B0)
  {
    hide Srdhm, RoundUp;
    var p: int := Srdhm(hd, -C32_OVER_17);
    var e := GuessRounded(hd, p);
    SignedRange(C48_OVER_17 + p);
    var t := hd - 0x6000_0000;
    Square(t, F2_ONE);
    GuessIdentity(hd, p, e);
    ProductBound(hd, e);
  }

  lemma GuessRounded(hd: int, p: int) returns (e: int)
    requires Denominator(hd) && p == Srdhm(hd, -C32_OVER_17)
    ensures e == p * TWO31 + hd * C32_OVER_17 && Within(e, 0x4000_0000)
  {
    SrdhmExact(hd, -C32_OVER_17);
    RoundUpNear(hd * -C32_OVER_17, TWO31);
    e := p * TWO31 + hd * C32_OVER_17;
  }

  lemma ProductBound(hd: int, e: int)
    requires Denominator(hd) && Within(e, 0x4000_0000)
    ensures Within(hd * e, 0x2000_0000_0000_0000)
  {
    MulMono(hd, TWO31, Abs(e));
    SignOfProduct(hd, e);
  }

  /** The two constants cancel the linear term around three quarters, which leaves a square. */
  lemma GuessIdentity(hd: int, p: int, e: int)
    requires e == p * TWO31 + hd * C32_OVER_17
    ensures var t := hd - 0x6000_0000;
            TWO31 * Residual(hd, C48_OVER_17 + p) == C32_OVER_17 * (t * t) - 505290268 * 0x400_0000_0000_0000 - hd * e
  {
    var t := hd - 0x6000_0000;
    calc {
      TWO31 * Residual(hd, C48_OVER_17 + p);
      TWO31 * UNIT - TWO31 * (hd * (C48_OVER_17 + p));
      { assert hd * (C48_OVER_17 + p) == hd * C48_OVER_17 + hd * p; }
      TWO31 * UNIT - TWO31 * C48_OVER_17 * hd - hd * (p * TWO31);
      { assert p * TWO31 == e - hd * C32_OVER_17; }
      TWO31 * UNIT - TWO31 * C48_OVER_17 * hd - hd * (e - hd * C32_OVER_17);
      { assert hd * (e - hd * C32_OVER_17) == hd * e - C32_OVER_17 * (hd * hd); }
      TWO31 * UNIT - TWO31 * C48_OVER_17 * hd + C32_OVER_17 * (hd * hd) - hd * e;
      { assert hd * hd == t * t + 2 * 0x6000_0000 * t + 0x6000_0000 * 0x6000_0000 by { assert hd == t + 0x6000_0000; } }
      C32_OVER_17 * (t * t) - 505290268 * 0x400_0000_0000_0000 - hd * e;
    }
  }

  // What rounding can add to a residual in one step: three units of 2^-29.
  const NOISE: int := 6 * 0x4000_0000

  /** `x` is near the reciprocal of `hd`. */
  predicate Near(hd: int, x: int) {
    Denominator(hd) && Within(Residual(hd, x), UNIT / 16)
  }

  lemma NearRange(hd: int, x: int)
    requires Near(hd, x)
    ensures 0 < x <= 17 * 0x400_0000
  {
    if x <= 0 {
      MulMono(x, 0, hd);
    } else if x > 17 * 0x400_0000 {
      MulMono(0x4000_0000, hd, x);
    }
  }

  /** The exact effect of a step: the residual is squared, apart from two rounding errors. */
  lemma StepIdentity(hd: int, x: int, p: int, s: int, e1: int, e2: int)
    requires e1 == p * TWO31 - hd * x && e2 == s * TWO31 - x * (F2_ONE - p)
    ensures var r := Residual(hd, x); UNIT * Residual(hd, x + 4 * s) == r * r + (e1 * (UNIT - r) - TWO31 * (hd * e2))
  {
    var r := Residual(hd, x);
    var hx := hd * x;
    assert hx == UNIT - r;
    assert TWO31 * (F2_ONE - p) == r - e1;
    assert hd * (s * TWO31) == hd * (x * (F2_ONE - p)) + hd * e2 by {
      assert s * TWO31 == x * (F2_ONE - p) + e2;
    }
    assert hd * (x * (F2_ONE - p)) == hx * (F2_ONE - p);
    assert TWO31 * (hd * (s * TWO31)) == hx * (r - e1) + TWO31 * (hd * e2) by {
      assert TWO31 * (hx * (F2_ONE - p)) == hx * (TWO31 * (F2_ONE - p));
    }
    assert UNIT * Residual(hd, x + 4 * s) == UNIT * r - TWO31 * (hd * (s * TWO31)) by {
      assert hd * (x + 4 * s) == hx + 4 * (hd * s);
      assert hd * (s * TWO31) == (hd * s) * TWO31;
    }
    assert hx * (r - e1) == (UNIT - r) * (r - e1);
    assert (UNIT - r) * (r - e1) == UNIT * r - r * r - e1 * (UNIT - r);
  }

  lemma StepWithin(hd: int, x: int, p: int, s: int, e1: int, e2: int)
    requires e1 == p * TWO31 - hd * x && e2 == s * TWO31 - x * (F2_ONE - p) && Near(hd, x)
    requires Within(e1, 0x4000_0000) && Within(e2, 0x4000_0000)
    ensures Within(UNIT * Residual(hd, x + 4 * s), Residual(hd, x) * Residual(hd, x) + NOISE * UNIT)
  {
    hide Residual;
    StepIdentity(hd, x, p, s, e1, e2);
    var r := Residual(hd, x);
    StepNoise(r, e1, hd, e2);
    Square(r, UNIT / 16);
    Offset(UNIT * Residual(hd, x + 4 * s), r * r, e1 * (UNIT - r) - TWO31 * (hd * e2), NOISE * UNIT);
  }

  lemma Offset(v: int, square: int, noise: int, bound: int)
    requires v == square + noise && Within(noise, bound) && square >= 0
    ensures Within(v, square + bound)
  {
  }

  /** The two products of a step, each with its rounding error. */
  lemma StepProducts(hd: int, x: Int32)
    requires Near(hd, x)
    ensures var p := Srdhm(hd, x);
            && Within(p * TWO31 - hd * x, 0x4000_0000) && Within(F2_ONE - p, 0x200_0001)
            && var s := Srdhm(x, F2_ONE - p);
               Within(s * TWO31 - x * (F2_ONE - p), 0x4000_0000) && Within(s, 0x200_0000)
  {
    NearRange(hd, x);
    var p: int := Srdhm(hd, x);
    ProductRounded(hd, x);
    var om := F2_ONE - p;
    assert Within(om, 0x200_0001);
    hide Srdhm, Residual;
    ProductRounded(x, om);
    SmallProduct(x, om);
  }

  lemma ProductRounded(x: Int32, y: Int32)
    requires x != MIN32
    ensures Within(Srdhm(x, y) * TWO31 - x as int * y as int, 0x4000_0000)
  {
    SrdhmExact(x, y);
    RoundUpNear(x as int * y as int, TWO31);
  }

  /** No intermediate value of a step wraps or saturates. */
  predicate StepExact(hd: int, x: Int32) {
    var p := Srdhm(hd, x);
    var s := Srdhm(x, F2_ONE - p);
    MIN32 <= F2_ONE - p <= MAX32 && Rescale(s, 4, 2) == 4 * s && NewtonStep(hd, x) == x + 4 * s
  }

  lemma StepIsExact(hd: int, x: Int32)
    requires Near(hd, x)
    ensures StepExact(hd, x)
  {
    hide Srdhm, Rescale;
    StepProducts(hd, x);
    NearRange(hd, x);
    var p := Srdhm(hd, x);
    SignedRange(F2_ONE - p);
    var s := Srdhm(x, F2_ONE - p);
    FourTimes(s);
    SignedRange(x + 4 * s);
  }

  /** One Newton step: nothing wraps or saturates, and the residual shrinks quadratically. */
  lemma StepResidual(hd: int, x: Int32)
    requires Near(hd, x)
    ensures StepExact(hd, x)
    ensures Within(UNIT * Residual(hd, NewtonStep(hd, x)), Residual(hd, x) * Residual(hd, x) + NOISE * UNIT)
  {
    hide Srdhm, Rescale, NewtonStep, Residual;
    StepProducts(hd, x);
    StepIsExact(hd, x);
    var p: int := Srdhm(hd, x);
    var s: int := Srdhm(x, F2_ONE - p);
    StepWithin(hd, x, p, s, p * TWO31 - hd * x, s * TWO31 - x * (F2_ONE - p));
  }

  lemma SmallProduct(x: int, om: int)
    requires 0 < x <= 17 * 0x400_0000 && Within(om, 0x200_0001)
    ensures Within(x * om, 17 * 0x400_0000 * 0x200_0001)
  {
    MulMono(x, 17 * 0x400_0000, Abs(om));
    SignOfProduct(x, om);
  }

  lemma FourTimes(s: Int32)
    requires Within(s, 0x200_0000)
    ensures Rescale(s, 4, 2) == 4 * s
  {
    SrmbpotLeft(s, 2);
    assert Pow2(2) == 4;
  }

  lemma StepNoise(r: int, e1: int, hd: int, e2: int)
    requires Within(r, UNIT / 16) && Within(e1, 0x4000_0000) && Within(e2, 0x4000_0000) && Denominator(hd)
    ensures Within(e1 * (UNIT - r) - TWO31 * (hd * e2), NOISE * UNIT)
  {
    ProductBound(hd, e2);
    MulMono(Abs(e1), 0x4000_0000, UNIT - r);
    SignOfProduct(e1, UNIT - r);
  }

  /** From a bound on the residual to the bound after a step. */
  lemma Shrink(r: int, r': int, b: int, b': int)
    requires Within(r, b) && Within(UNIT * r', r * r + NOISE * UNIT) && b * b + NOISE * UNIT <= b' * UNIT
    ensures Within(r', b')
  {
    Square(r, b);
  }

  const B1: int := 3989400000000000
  const B2: int := 13812000000000
  // Four units of 2^-29.
  const B3: int := 4 * 0x8000_0000

  lemma StepBound(hd: int, x: Int32, b: int, b': int)
    requires Denominator(hd) && Within(Residual(hd, x), b) && b <= UNIT / 16 && b * b + NOISE * UNIT <= b' * UNIT
    ensures Within(Residual(hd, NewtonStep(hd, x)), b')
  {
    StepResidual(hd, x);
    Shrink(Residual(hd, x), Residual(hd, NewtonStep(hd, x)), b, b');
  }

  /** The reciprocal, for every denominator: each step is exact arithmetic but for rounding, and after three steps
      the product with the denominator is within four units of 2^-29 of one. */
  lemma ReciprocalConverges(hd: int)
    requires Denominator(hd)
    ensures var x0, x1, x2, x3 := FirstGuess(hd), NewtonSteps(hd, FirstGuess(hd), 1), NewtonSteps(hd, FirstGuess(hd), 2), NewtonSteps(hd, FirstGuess(hd), 3);
            && StepExact(hd, x0) && StepExact(hd, x1) && StepExact(hd, x2)
            && Within(Residual(hd, x0), B0) && Within(Residual(hd, x1), B1) && Within(Residual(hd, x2), B2)
            && Within(Residual(hd, x3), B3) && 0 < x3 <= 17 * 0x400_0000
  {
    hide FirstGuess, NewtonStep, Residual, Srdhm, Rescale;
    FirstResidual(hd);
    var x0 := FirstGuess(hd);
    var x1 := NewtonSteps(hd, x0, 1);
    assert NewtonSteps(hd, x0, 0) == x0;
    assert x1 == NewtonStep(hd, x0);
    StepResidual(hd, x0);
    StepBound(hd, x0, B0, B1);
    var x2 := NewtonSteps(hd, x0, 2);
    assert x2 == NewtonStep(hd, x1);
    StepResidual(hd, x1);
    StepBound(hd, x1, B1, B2);
    var x3 := NewtonSteps(hd, x0, 3);
    assert x3 == NewtonStep(hd, x2);
    StepResidual(hd, x2);
    StepBound(hd, x2, B2, B3);
    NearRange(hd, x3);
  }

  function Result(a: int): Int32 {
    Rescale(NewtonSteps(HalfDenominator(a), FirstGuess(HalfDenominator(a)), 3), 1, 0)
  }

  lemma DoubleWord(x: Int32)
    ensures Srmbpot(x, 1) == Clamp(2 * x, MIN32, MAX32)
  {
    SrmbpotLeft(x, 1);
    assert Pow2(1) == 2;
  }

  /** An iterate of 2 or more, which saturates, takes a half denominator next to one half, where the largest word is close. */
  lemma SaturatedClose(hd: int, x: int)
    requires Denominator(hd) && x >= 2 * F2_ONE && Within(Residual(hd, x), B3)
    ensures Within(2 * UNIT - hd * MAX32, 2 * B3)
  {
    MulMono(2 * F2_ONE, x, hd);
    assert x * hd == hd * x;
    assert hd <= 0x4000_0000 + 8;
  }

  /** The result, for every input from zero up to one: twice the last iterate, saturated. Its product with the half
      denominator is within eight units of 2^-30 of one half, whether it saturates or not. */
  lemma ResultClose(a: Int32)
    requires a >= 0
    ensures var hd := (a + TWO31) / 2;
            var x := NewtonSteps(hd, FirstGuess(hd), 3);
            && 0 < Result(a) == Clamp(2 * x, MIN32, MAX32)
            && Within(2 * UNIT - hd * Result(a), 2 * B3)
  {
    hide NewtonSteps, FirstGuess, HalfDenominator, Srmbpot, StepExact;
    HalfDenominatorExact(a);
    var hd := HalfDenominator(a);
    ReciprocalConverges(hd);
    var x: int := NewtonSteps(hd, FirstGuess(hd), 3);
    DoubleWord(x);
    assert hd * (2 * x) == 2 * (hd * x);
    if x >= 2 * F2_ONE {
      SaturatedClose(hd, x);
    }
  }
}
