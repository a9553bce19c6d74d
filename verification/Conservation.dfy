/** The fixed-point softmax conserves its total: the shares of a row sum to 256 within half its number of elements. */
module Conservation {
  import opened Words
  import opened FixedPoint
  import opened Rows
  import opened Reciprocal
  import opened Exponential
  import opened ExponentialOrder
  import opened Softmax

  // ----- the shares -----

  /** What an element gets of 256, before the offset of -128 and the clamp. */
  function Share(v: int, max: int, scale: int, exponent: nat, multiplier: int, leftShift: nat): int {
    if Counted(S32(v - max), leftShift) then Rdpot(Srdhm(scale, ExpOf(S32(v - max), multiplier, leftShift)), exponent) else 0
  }

  function Shares(input: seq<int>, max: int, scale: int, exponent: nat, multiplier: int, leftShift: nat): int {
    if input == [] then 0
    else
      var n := |input| - 1;
      Shares(input[..n], max, scale, exponent, multiplier, leftShift) + Share(input[n], max, scale, exponent, multiplier, leftShift)
  }

  /** The exponential an element brings into the sum, not yet rescaled. */
  function Part(v: int, max: int, multiplier: int, leftShift: nat): int {
    if Counted(S32(v - max), leftShift) then ExpOf(S32(v - max), multiplier, leftShift) else 0
  }

  function Parts(input: seq<int>, max: int, multiplier: int, leftShift: nat): int {
    if input == [] then 0
    else
      var n := |input| - 1;
      Parts(input[..n], max, multiplier, leftShift) + Part(input[n], max, multiplier, leftShift)
  }

  /** An output is its element's share less 128, clamped. */
  lemma OutputIsShare(v: int, max: int, scale: Int32, exponent: nat, multiplier: int, leftShift: nat)
    requires -128 <= v <= max <= 127 && Scaling(multiplier, leftShift) && scale > 0 && exponent > 0
    ensures 0 <= Share(v, max, scale, exponent, multiplier, leftShift)
    ensures Output(v, max, scale, exponent, multiplier, leftShift)
            == Clamp(Share(v, max, scale, exponent, multiplier, leftShift) - 128, -128, 127)
  {
    hide ExpOf, Counted, Scaling, Srdhm, Rdpot;
    SignedRange(v - max);
    if Counted(v - max, leftShift) {
      CountedTerm(v - max, multiplier, leftShift);
      ShareRange(scale, ExpOf(v - max, multiplier, leftShift), exponent);
    }
  }

  lemma ShareRange(scale: Int32, e: Int32, exponent: nat)
    requires scale > 0 && e >= 0 && exponent > 0
    ensures 0 <= Rdpot(Srdhm(scale, e), exponent) && S32(Rdpot(Srdhm(scale, e), exponent) - 128) == Rdpot(Srdhm(scale, e), exponent) - 128
  {
    SrdhmExact(scale, e);
    RoundUpMono(0, scale as int * e as int, TWO31);
    RdpotExact(Srdhm(scale, e), exponent);
    hide Srdhm, Rdpot, RoundUp;
    RoundAwayMono(0, Srdhm(scale, e), Pow2(exponent));
    SignedRange(Rdpot(Srdhm(scale, e), exponent) - 128);
  }

  // ----- rounding, element by element -----

  /** Product, then shift: over the common denominator 2^31 * p. */
  lemma TwoSteps(q: int, y: int, e: int, scale: int, p: int)
    requires p > 0 && -TWO31 <= 2 * (y * TWO31 - e * scale) <= TWO31 && -p <= 2 * (q * p - y) <= p
    ensures -(TWO31 * p + TWO31) <= 2 * (q * (TWO31 * p) - e * scale) <= TWO31 * p + TWO31
  {
    assert q * (TWO31 * p) == TWO31 * (q * p);
  }

  lemma ShareNear(scale: Int32, e: Int32, exponent: nat)
    requires scale > 0
    ensures var k := TWO31 * Pow2(exponent);
            -(k + TWO31) <= 2 * (Rdpot(Srdhm(scale, e), exponent) * k - e as int * scale as int) <= k + TWO31
  {
    var y: int, p: int := Srdhm(scale, e), Pow2(exponent);
    SrdhmExact(scale, e);
    RoundUpNear(scale as int * e as int, TWO31);
    RdpotExact(y, exponent);
    RoundAwayNear(y, p);
    assert scale as int * e as int == e as int * scale as int;
    hide Srdhm, Rdpot, RoundAway, RoundUp, Pow2;
    TwoSteps(Rdpot(y, exponent), y, e, scale, p);
  }

  lemma TermNear(e: Int32)
    ensures -4096 <= 2 * (Rescale(e, 0, ACCUMULATION_INTEGER_BITS) * 4096 - e) <= 4096
  {
    assert Pow2(12) == 4096;
    SrmbpotRight(e, -12);
    hide RoundAway, Srmbpot, Pow2;
    RoundAwayNear(e, 4096);
  }

  /** The sum of the terms is the sum of the exponentials over 4096, within half a unit an element. */
  lemma {:induction false} TermsNear(input: seq<int>, max: int, multiplier: int, leftShift: nat)
    ensures var n := |input|;
            -(n * 4096) <= 2 * (TrueSum(input, max, multiplier, leftShift) * 4096 - Parts(input, max, multiplier, leftShift)) <= n * 4096
    decreases |input|
  {
    hide ExpOf, Counted, Rescale;
    if input != [] {
      var n := |input| - 1;
      TermsNear(input[..n], max, multiplier, leftShift);
      TermNear(ExpOf(S32(input[n] - max), multiplier, leftShift));
    }
  }

  /** The shares sum to the scaled sum of the exponentials, within a little more than half a unit an element. */
  lemma {:induction false} SharesNear(input: seq<int>, max: int, scale: Int32, exponent: nat, multiplier: int, leftShift: nat)
    requires scale > 0
    ensures var k, n := TWO31 * Pow2(exponent), |input|;
            -(n * (k + TWO31)) <= 2 * (Shares(input, max, scale, exponent, multiplier, leftShift) * k - Parts(input, max, multiplier, leftShift) * scale)
                               <= n * (k + TWO31)
    decreases |input|
  {
    hide ExpOf, Counted, Srdhm, Rdpot;
    var k := TWO31 * Pow2(exponent);
    if input == [] {
      assert 0 * k == 0 && 0 * scale == 0 && 0 * (k + TWO31) == 0;
    } else {
      var n := |input| - 1;
      SharesNear(input[..n], max, scale, exponent, multiplier, leftShift);
      ShareNear(scale, ExpOf(S32(input[n] - max), multiplier, leftShift), exponent);
      hide Pow2, Shares, Parts, Share, Part;
      OneMore(Shares(input[..n], max, scale, exponent, multiplier, leftShift), Share(input[n], max, scale, exponent, multiplier, leftShift), k,
              Parts(input[..n], max, multiplier, leftShift), Part(input[n], max, multiplier, leftShift), scale, n);
    }
  }

  lemma OneMore(s: int, q: int, k: int, t: int, e: int, scale: int, n: nat)
    requires -(n * (k + TWO31)) <= 2 * (s * k - t * scale) <= n * (k + TWO31)
    requires -(k + TWO31) <= 2 * (q * k - e * scale) <= k + TWO31
    ensures -((n + 1) * (k + TWO31)) <= 2 * ((s + q) * k - (t + e) * scale) <= (n + 1) * (k + TWO31)
  {
    assert (s + q) * k == s * k + q * k && (t + e) * scale == t * scale + e * scale;
    assert (n + 1) * (k + TWO31) == n * (k + TWO31) + (k + TWO31);
  }

  // ----- the scale -----

  /** The normalised sum times the scale is 2^62, but for rounding. */
  lemma ScaleNear(z: int, scale: int)
    requires z >= 0 && 0 < scale <= MAX32 && -(2 * B3) <= 2 * UNIT - (z / 2) * scale <= 2 * B3
    ensures -(4 * B3 + TWO31) <= z * scale - 4 * UNIT <= 4 * B3 + TWO31
  {
    var h, r := z / 2, z % 2;
    assert z * scale == 2 * (h * scale) + r * scale;
    assert 0 <= r * scale <= scale by { if r == 0 { assert 0 * scale == 0; } else { assert 1 * scale == scale; } }
  }

  /** The leading zeros of an accepted sum. */
  lemma LeadingZeros(sum: int)
    requires 0x8_0000 <= sum < 0x1000_0000
    ensures 4 <= CountLeadingZeros(sum) <= 12 && ExponentOf(sum) == 35 - CountLeadingZeros(sum)
  {
    SignedRange(sum);
    SomePowers();
    hide BitLength, Pow2, Normalised, Result;
    LengthAtMost(sum, 19);
    LengthAtMost(sum, 28);
  }

  lemma PowersBeside(clz: nat)
    requires clz <= 12
    ensures Pow2(clz) <= 4096 && Pow2(clz) * (TWO31 * Pow2(35 - clz)) == 64 * UNIT
  {
    Pow2Mono(clz, 12);
    assert Pow2(12) == 4096;
    Pow2Add(clz, 35 - clz);
    Pow2Add(31, 4);
    SomePowers();
    assert Pow2(4) == 16;
    assert Pow2(clz) * (TWO31 * Pow2(35 - clz)) == TWO31 * (Pow2(clz) * Pow2(35 - clz));
  }

  /** The shares against the sum of the terms. */
  lemma AgainstSum(s: int, k: int, t: int, scale: int, sum: int, n: nat)
    requires 0 < scale <= MAX32
    requires -(n * (k + TWO31)) <= 2 * (s * k - t * scale) <= n * (k + TWO31) && -(n * 4096) <= 2 * (sum * 4096 - t) <= n * 4096
    ensures -(n * (k + 2 * 4096 * TWO31)) <= 2 * (s * k - 4096 * (sum * scale)) <= n * (k + 2 * 4096 * TWO31)
  {
    MulBounds(2 * (sum * 4096 - t), n * 4096, scale);
    assert 2 * (sum * 4096 - t) * scale == 2 * (4096 * (sum * scale)) - 2 * (t * scale);
    MulMono(scale, TWO31, n * 4096);
    assert scale * (n * 4096) == (n * 4096) * scale && TWO31 * (n * 4096) == n * (4096 * TWO31);
    assert n * (k + TWO31) + n * (4096 * TWO31) == n * (k + 4097 * TWO31);
    MulMono(k + 4097 * TWO31, k + 2 * 4096 * TWO31, n);
    assert (k + 4097 * TWO31) * n == n * (k + 4097 * TWO31) && (k + 2 * 4096 * TWO31) * n == n * (k + 2 * 4096 * TWO31);
  }

  /** The same over the common denominator 2^66. */
  lemma OverCommon(s: int, k: int, scale: int, sum: int, n: nat, c: int)
    requires 0 < c <= 4096 && n <= 511 && c * k == 64 * UNIT
    requires -(n * (k + 2 * 4096 * TWO31)) <= 2 * (s * k - 4096 * (sum * scale)) <= n * (k + 2 * 4096 * TWO31)
    ensures -(n * (64 * UNIT) + 32 * UNIT) <= 2 * (s * (64 * UNIT) - 4096 * ((sum * c) * scale)) <= n * (64 * UNIT) + 32 * UNIT
  {
    var x, b := 2 * (s * k - 4096 * (sum * scale)), k + 2 * 4096 * TWO31;
    MulBounds(x, n * b, c);
    CommonProduct(s, k, sum, scale, c);
    CommonBound(n, k, c);
  }

  lemma CommonProduct(s: int, k: int, sum: int, scale: int, c: int)
    ensures 2 * (s * k - 4096 * (sum * scale)) * c == 2 * (s * (c * k) - 4096 * ((sum * c) * scale))
  {
    assert (s * k) * c == s * (c * k);
    assert (sum * scale) * c == (sum * c) * scale;
  }

  lemma CommonBound(n: nat, k: int, c: int)
    requires 0 < c <= 4096 && n <= 511 && c * k == 64 * UNIT
    ensures (n * (k + 2 * 4096 * TWO31)) * c <= n * (64 * UNIT) + 32 * UNIT
  {
    assert (n * (k + 2 * 4096 * TWO31)) * c == n * (c * k) + (2 * 4096 * TWO31) * (n * c);
    MulMono(n, 511, c);
    assert n * c <= 511 * 4096;
  }

  /** The last step: less than a unit more than half the number of elements is half their number. */
  lemma LastStep(s: int, p: int, n: nat)
    requires -(n * (64 * UNIT) + 32 * UNIT) <= 2 * (s * (64 * UNIT) - 4096 * p) <= n * (64 * UNIT) + 32 * UNIT
    requires -(4 * B3 + TWO31) <= p - 4 * UNIT <= 4 * B3 + TWO31
    ensures Abs(2 * (s - 256)) <= n
  {
  }

  /** Conservation. In every row of up to 511 elements the shares of 256 sum to 256 within half the number of elements, which
      is what rounding each of them may come to. */
  lemma SharesConserved(input: seq<int>, multiplier: int, leftShift: nat)
    requires Int8Row(input) && |input| <= 511 && Scaling(multiplier, leftShift)
    ensures var sum := SumOfExps(input, MaxOf(input), multiplier, leftShift);
            var scale, exponent := GetReciprocal(sum, ACCUMULATION_INTEGER_BITS).0, ExponentOf(sum);
            && scale > 0 && exponent > 0
            && Abs(2 * (Shares(input, MaxOf(input), scale, exponent, multiplier, leftShift) - 256)) <= |input|
            && forall i :: 0 <= i < |input| ==>
                 Output(input[i], MaxOf(input), scale, exponent, multiplier, leftShift)
                 == Clamp(Share(input[i], MaxOf(input), scale, exponent, multiplier, leftShift) - 128, -128, 127)
  {
    hide TrueSum, SumOfExps, GetReciprocal, ExponentOf, Shares, Share, Parts, Scaling, Accepted, Output, Pow2, CountLeadingZeros;
    var max := MaxOf(input);
    MaxIsMax(input);
    AcceptedExactly(input, multiplier, leftShift);
    UpTo511(input, multiplier, leftShift);
    var sum := SumOfExps(input, max, multiplier, leftShift);
    LeadingZeros(sum);
    ScalePositive(sum);
    var scale, exponent := GetReciprocal(sum, ACCUMULATION_INTEGER_BITS).0, ExponentOf(sum);
    var clz := CountLeadingZeros(sum);
    SharesNear(input, max, scale, exponent, multiplier, leftShift);
    TermsNear(input, max, multiplier, leftShift);
    SumOfShares(Shares(input, max, scale, exponent, multiplier, leftShift), Parts(input, max, multiplier, leftShift), sum, |input|);
    forall i | 0 <= i < |input|
      ensures Output(input[i], max, scale, exponent, multiplier, leftShift)
              == Clamp(Share(input[i], max, scale, exponent, multiplier, leftShift) - 128, -128, 127)
    {
      OutputIsShare(input[i], max, scale, exponent, multiplier, leftShift);
    }
  }

  /** From the two sums over a row to its total. */
  lemma SumOfShares(s: int, t: int, sum: int, n: nat)
    requires 0x8_0000 <= sum < 0x1000_0000 && n <= 511 && ExponentOf(sum) >= 0
    requires var k, scale := TWO31 * Pow2(ExponentOf(sum)), GetReciprocal(sum, ACCUMULATION_INTEGER_BITS).0;
             -(n * (k + TWO31)) <= 2 * (s * k - t * scale) <= n * (k + TWO31)
    requires -(n * 4096) <= 2 * (sum * 4096 - t) <= n * 4096
    ensures Abs(2 * (s - 256)) <= n
  {
    hide ExponentOf, Pow2, CountLeadingZeros, GetReciprocal;
    LeadingZeros(sum);
    ScalePositive(sum);
    var clz := CountLeadingZeros(sum);
    PowersBeside(clz);
    ScaleOfSum(sum);
    FromSums(s, t, sum, n, GetReciprocal(sum, ACCUMULATION_INTEGER_BITS).0, TWO31 * Pow2(35 - clz), Pow2(clz));
  }

  lemma FromSums(s: int, t: int, sum: int, n: nat, scale: int, k: int, c: int)
    requires n <= 511 && 0 < scale <= MAX32 && 0 < c <= 4096 && c * k == 64 * UNIT
    requires -(n * (k + TWO31)) <= 2 * (s * k - t * scale) <= n * (k + TWO31) && -(n * 4096) <= 2 * (sum * 4096 - t) <= n * 4096
    requires -(4 * B3 + TWO31) <= (sum * c) * scale - 4 * UNIT <= 4 * B3 + TWO31
    ensures Abs(2 * (s - 256)) <= n
  {
    AgainstSum(s, k, t, scale, sum, n);
    OverCommon(s, k, scale, sum, n, c);
    LastStep(s, (sum * c) * scale, n);
  }

  lemma ScaleOfSum(sum: int)
    requires 0x8_0000 <= sum < 0x1000_0000 && CountLeadingZeros(sum) >= 0
    ensures var z, scale: int := sum * Pow2(CountLeadingZeros(sum)), GetReciprocal(sum, ACCUMULATION_INTEGER_BITS).0;
            -(4 * B3 + TWO31) <= z * scale - 4 * UNIT <= 4 * B3 + TWO31
  {
    hide Pow2, CountLeadingZeros, Normalised, Result, NewtonSteps, FirstGuess;
    NormalisedRange(sum);
    ScalePositive(sum);
    assert U32(sum) == sum;
    ResultClose(Normalised(sum));
    ScaleNear(sum * Pow2(CountLeadingZeros(sum)), GetReciprocal(sum, ACCUMULATION_INTEGER_BITS).0);
  }

  // ----- which elements count, and what each gets -----

  /** An element counts just if its difference to the maximum, shifted, is at least -31 with 26 fractional bits. */
  lemma CountedExactly(diff: int, leftShift: nat)
    ensures Counted(diff, leftShift) <==> -diff * Pow2(leftShift) <= 31 * 0x400_0000
  {
    var p, r := Pow2(leftShift), InputRadius(leftShift);
    DivBounds(31 * 0x400_0000, p);
    if -diff <= r {
      MulMono(-diff, r, p);
    } else {
      MulMono(r + 1, -diff, p);
      assert (r + 1) * p == r * p + p;
    }
  }

  /** The scaled difference as a number, with nothing left out and nothing wrapped; it saturates at the smallest word. */
  function TrueArgument(diff: int, multiplier: int, leftShift: nat): int {
    var a := RoundUp(diff * Pow2(leftShift) * multiplier, TWO31);
    if a < MIN32 then MIN32 else a
  }

  /** The exponential of that number, for every element, counted or not. */
  function TrueExp(diff: int, multiplier: int, leftShift: nat): Int32 {
    Exp(TrueArgument(diff, multiplier, leftShift), 5)
  }

  lemma CountedExp(diff: int, multiplier: int, leftShift: nat)
    requires -255 <= diff <= 0 && Scaling(multiplier, leftShift) && Counted(diff, leftShift)
    ensures ExpOf(diff, multiplier, leftShift) == TrueExp(diff, multiplier, leftShift)
  {
    hide Exp, InputRadius, Srdhm, Pow2, Counted;
    ScaledRange(diff, multiplier, leftShift);
    ScaledIs(diff, multiplier, leftShift);
    SrdhmExact(diff * Pow2(leftShift), multiplier);
  }

  /** A stage that applies leaves no more than its factor. */
  lemma {:induction false} BarrelBelowFactor(remainder: int, start: Int32, i: nat, n: nat)
    requires start >= 0 && i < n <= |EXP_BARREL| && Taken(5, remainder, i)
    ensures Barrel(5, remainder, start, n) <= EXP_BARREL[i].1
    decreases n
  {
    hide Srdhm, Taken;
    BarrelShrinks(5, remainder, start, n - 1);
    var r := Barrel(5, remainder, start, n - 1);
    if n - 1 == i {
      SrdhmCommutes(r, EXP_BARREL[i].1);
      FactorBelow(r, EXP_BARREL[i].1);
    } else {
      BarrelBelowFactor(remainder, start, i, n - 1);
      FactorShrinks(r, EXP_BARREL[n - 1].1);
    }
  }

  lemma FactorBelow(r: Int32, f: Int32)
    requires r >= 0 && f > 0
    ensures Srdhm(f, r) <= f
  {
    if r == 0 {
      SrdhmExact(f, r);
    } else {
      FactorShrinks(f, r);
    }
  }

  /** At -15.5 the exponential has lost at least the factor exp(-8). */
  lemma FarExp(a: Int32)
    requires a <= -62 * QUARTER
    ensures 0 <= Exp(a, 5) <= 720401
  {
    hide Exp;
    ExpMono(a, -62 * QUARTER);
    ExpRange(a);
    FarPoint();
  }

  lemma FarPoint()
    ensures Exp(-62 * QUARTER, 5) <= 720401
  {
    hide ModQuarter, ExpOnInterval, Barrel, Srmbpot, S32;
    var a := -62 * QUARTER;
    Reduction(a);
    assert ModQuarter(a, 5) == -QUARTER;
    IntervalExact(32 * -QUARTER);
    assert Taken(5, 61 * QUARTER, 5) by { StageBit(61, 5); assert Pow2(5) == 32; }
    hide Taken;
    BarrelBelowFactor(61 * QUARTER, ExpOnInterval(32 * -QUARTER), 5, |EXP_BARREL|);
  }

  /** An element that does not count is so far below the maximum that its exponential is next to nothing. */
  lemma UncountedExp(diff: int, multiplier: int, leftShift: nat)
    requires diff <= 0 && Scaling(multiplier, leftShift) && !Counted(diff, leftShift)
    ensures 0 <= TrueExp(diff, multiplier, leftShift) <= 720401
  {
    hide Exp, InputRadius, Pow2, Counted;
    CountedExactly(diff, leftShift);
    var x := -diff * Pow2(leftShift);
    assert diff * Pow2(leftShift) == -x;
    ProductBetween(x, multiplier, 31 * 0x400_0000 + 1, x, 0x4000_0000, MAX32);
    assert -x * multiplier == -(x * multiplier);
    RoundUpMono(-x * multiplier, -((31 * 0x400_0000 + 1) * 0x4000_0000), TWO31);
    RoundUpUnique(-((31 * 0x400_0000 + 1) * 0x4000_0000), TWO31, -31 * 0x200_0000);
    FarExp(TrueArgument(diff, multiplier, leftShift));
  }

  /** Shares of so little are zero. */
  lemma FarShare(scale: Int32, e: Int32, exponent: nat)
    requires scale > 0 && 0 <= e <= 720401 && exponent >= 23
    ensures Rdpot(Srdhm(scale, e), exponent) == 0
  {
    hide Srdhm, Rdpot, Pow2;
    SrdhmCommutes(scale, e);
    FactorShrinks(e, scale);
    RdpotExact(Srdhm(scale, e), exponent);
    Pow2Mono(23, exponent);
    assert Pow2(23) == 0x80_0000 by { TwentyThree(); }
    if Srdhm(scale, e) > 0 {
      RoundUpUnique(Srdhm(scale, e), Pow2(exponent), 0);
    } else {
      RoundUpUnique(0, Pow2(exponent), 0);
    }
  }

  lemma TwentyThree()
    ensures Pow2(23) == 0x80_0000
  {
    assert Pow2(8) == 256;
    assert Pow2(16) == 65536;
  }

  /** Every element, counted or not, gets the clamped share of its own exponential. */
  lemma EveryOutput(v: int, max: int, scale: Int32, exponent: nat, multiplier: int, leftShift: nat)
    requires -128 <= v <= max <= 127 && Scaling(multiplier, leftShift) && scale > 0 && exponent >= 23
    ensures Share(v, max, scale, exponent, multiplier, leftShift) == Rdpot(Srdhm(scale, TrueExp(v - max, multiplier, leftShift)), exponent)
    ensures Output(v, max, scale, exponent, multiplier, leftShift)
            == Clamp(Rdpot(Srdhm(scale, TrueExp(v - max, multiplier, leftShift)), exponent) - 128, -128, 127)
  {
    hide ExpOf, TrueExp, Counted, Scaling, Srdhm, Rdpot, Output;
    SignedRange(v - max);
    OutputIsShare(v, max, scale, exponent, multiplier, leftShift);
    if Counted(v - max, leftShift) {
      CountedExp(v - max, multiplier, leftShift);
    } else {
      UncountedExp(v - max, multiplier, leftShift);
      FarShare(scale, TrueExp(v - max, multiplier, leftShift), exponent);
    }
  }

  // ----- proportion -----

  /** One share over the common denominator 2^66. */
  lemma ShareOverCommon(q: int, e: int, k: int, scale: int, sum: int, c: int)
    requires 0 < c <= 4096 && c * k == 64 * UNIT && sum >= 0
    requires -(k + TWO31) <= 2 * (q * k - e * scale) <= k + TWO31
    ensures -(sum * (64 * UNIT + 4096 * TWO31)) <= 2 * ((q * sum) * (64 * UNIT) - e * ((sum * c) * scale)) <= sum * (64 * UNIT + 4096 * TWO31)
  {
    var x := 2 * (q * k - e * scale);
    MulBounds(x, k + TWO31, c);
    assert x * c == 2 * (q * (64 * UNIT) - e * (c * scale)) by {
      assert (q * k) * c == q * (c * k);
      assert (e * scale) * c == e * (c * scale);
    }
    assert (k + TWO31) * c == c * k + TWO31 * c;
    WithSum(q * (64 * UNIT) - e * (c * scale), 64 * UNIT + 4096 * TWO31, sum);
    assert (q * (64 * UNIT)) * sum == (q * sum) * (64 * UNIT);
    assert (e * (c * scale)) * sum == e * ((sum * c) * scale) by { assert (c * scale) * sum == (sum * c) * scale; }
  }

  lemma WithSum(x: int, b: int, sum: int)
    requires -b <= 2 * x <= b && sum >= 0
    ensures -(sum * b) <= 2 * (x * sum) <= sum * b
  {
    MulMono(2 * x, b, sum);
    MulMono(-b, 2 * x, sum);
  }

  /** From there to sixteen times the sum. */
  lemma Proportion(q: int, e: int, sum: int, p: int)
    requires 0 <= e <= MAX32 && 0 < sum < 0x1000_0000 && -(4 * B3 + TWO31) <= p - 4 * UNIT <= 4 * B3 + TWO31
    requires -(sum * (64 * UNIT + 4096 * TWO31)) <= 2 * ((q * sum) * (64 * UNIT) - e * p) <= sum * (64 * UNIT + 4096 * TWO31)
    ensures -(16 * sum + 1024) <= 2 * (16 * (q * sum) - e) <= 16 * sum + 1024
  {
    var y := e * (p - 4 * UNIT);
    SmallRest(e, p - 4 * UNIT, 4 * B3 + TWO31);
    assert e * p == y + e * (4 * UNIT) by { Apart(e, p, 4 * UNIT); }
    Divided(q * sum, e, sum, y);
  }

  lemma Apart(e: int, p: int, c: int)
    ensures e * p == e * (p - c) + e * c
  {
  }

  lemma SmallRest(e: int, d: int, b: int)
    requires 0 <= e <= MAX32 && -b <= d <= b
    ensures -(TWO31 * b) <= e * d <= TWO31 * b
  {
    if d >= 0 { MulMono(e, TWO31, d); MulMono(d, b, TWO31); } else { MulMono(e, TWO31, -d); MulMono(-d, b, TWO31); assert e * d == -(e * -d); }
  }

  lemma Divided(x: int, e: int, sum: int, y: int)
    requires 0 < sum < 0x1000_0000 && -(TWO31 * (4 * B3 + TWO31)) <= y <= TWO31 * (4 * B3 + TWO31)
    requires -(sum * (64 * UNIT + 4096 * TWO31)) <= 2 * (x * (64 * UNIT) - (y + e * (4 * UNIT))) <= sum * (64 * UNIT + 4096 * TWO31)
    ensures -(16 * sum + 1024) <= 2 * (16 * x - e) <= 16 * sum + 1024
  {
  }

  /** Proportion. In every row of up to 511 elements each share is the element's exponential over sixteen times the sum, which
      is 4096 times smaller than the exponentials it adds up: 256 times the element's part, within half a unit and a little. */
  lemma ShareOfElement(input: seq<int>, multiplier: int, leftShift: nat, i: nat)
    requires Int8Row(input) && |input| <= 511 && Scaling(multiplier, leftShift) && i < |input|
    ensures var max, sum := MaxOf(input), SumOfExps(input, MaxOf(input), multiplier, leftShift);
            var scale, exponent := GetReciprocal(sum, ACCUMULATION_INTEGER_BITS).0, ExponentOf(sum);
            && scale > 0 && exponent >= 23
            && var q := Rdpot(Srdhm(scale, TrueExp(input[i] - max, multiplier, leftShift)), exponent);
               && Output(input[i], max, scale, exponent, multiplier, leftShift) == Clamp(q - 128, -128, 127)
               && -(16 * sum + 1024) <= 2 * (16 * (q * sum) - TrueExp(input[i] - max, multiplier, leftShift)) <= 16 * sum + 1024
  {
    hide TrueSum, SumOfExps, GetReciprocal, ExponentOf, Scaling, Accepted, Output, Pow2, CountLeadingZeros, TrueExp, Srdhm, Rdpot;
    var max := MaxOf(input);
    MaxIsMax(input);
    AcceptedExactly(input, multiplier, leftShift);
    UpTo511(input, multiplier, leftShift);
    var sum := SumOfExps(input, max, multiplier, leftShift);
    LeadingZeros(sum);
    ScalePositive(sum);
    var scale: Int32, exponent := GetReciprocal(sum, ACCUMULATION_INTEGER_BITS).0, ExponentOf(sum);
    EveryOutput(input[i], max, scale, exponent, multiplier, leftShift);
    var e := TrueExp(input[i] - max, multiplier, leftShift);
    TrueExpRange(input[i] - max, multiplier, leftShift);
    ShareNear(scale, e, exponent);
    var clz := CountLeadingZeros(sum);
    PowersBeside(clz);
    ScaleOfSum(sum);
    ShareOverCommon(Rdpot(Srdhm(scale, e), exponent), e, TWO31 * Pow2(exponent), scale, sum, Pow2(clz));
    Proportion(Rdpot(Srdhm(scale, e), exponent), e, sum, (sum * Pow2(clz)) * scale);
  }

  lemma TrueExpRange(diff: int, multiplier: int, leftShift: nat)
    requires diff <= 0 && Scaling(multiplier, leftShift)
    ensures 0 <= TrueExp(diff, multiplier, leftShift) <= MAX32
  {
    hide Exp, Pow2;
    MulMono(diff, 0, Pow2(leftShift));
    MulMono(diff * Pow2(leftShift), 0, multiplier);
    RoundUpMono(diff * Pow2(leftShift) * multiplier, 0, TWO31);
    RoundUpUnique(0, TWO31, 0);
    ExpRange(TrueArgument(diff, multiplier, leftShift));
  }
}
