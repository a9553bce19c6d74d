/** The integer softmax of the TFLite reference: maximum, exponentials, reciprocal of their sum, rescaled outputs. */
module Softmax {
  import opened Words
  import opened FixedPoint
  import opened Rows
  import opened Reciprocal
  import opened Exponential
  import opened ExponentialOrder

  const SCALED_DIFF_INTEGER_BITS := 5
  const ACCUMULATION_INTEGER_BITS := 12

  // ----- reciprocal of a sum -----

  function BitLength(x: nat): nat {
    if x == 0 then 0 else 1 + BitLength(x / 2)
  }

  function CountLeadingZeros(x: Word): int { 32 - BitLength(x) }

  /** The argument of the reciprocal: the sum normalised to its leading bit, which is then dropped. */
  function Normalised(x: Word): Int32 {
    var clz := CountLeadingZeros(x);
    S32(U32(x * Pow2(if clz >= 0 then clz else 0)) - TWO31)
  }

  /** The reciprocal and the number of bits it has above one. */
  function GetReciprocal(x: int, integerDigits: int): (Int32, int) {
    (Result(Normalised(U32(x))), integerDigits - CountLeadingZeros(U32(x)))
  }

  // ----- the rows -----

  function InputRadius(leftShift: nat): int {
    31 * 0x400_0000 / Pow2(leftShift)
  }

  predicate Counted(diff: int, leftShift: nat) {
    diff >= -InputRadius(leftShift)
  }

  /** The exponential of a scaled difference to the row's maximum. */
  function ExpOf(diff: int, multiplier: int, leftShift: nat): Int32 {
    Exp(MultiplyByQuantizedMultiplier(diff, multiplier, leftShift), SCALED_DIFF_INTEGER_BITS)
  }

  /** What one element adds to the sum. */
  function Term(v: int, max: int, multiplier: int, leftShift: nat): int {
    if Counted(S32(v - max), leftShift)
    then Rescale(ExpOf(S32(v - max), multiplier, leftShift), 0, ACCUMULATION_INTEGER_BITS)
    else 0
  }

  function SumOfExps(input: seq<int>, max: int, multiplier: int, leftShift: nat): Int32 {
    if input == [] then 0
    else
      var n := |input| - 1;
      S32(SumOfExps(input[..n], max, multiplier, leftShift) + Term(input[n], max, multiplier, leftShift))
  }

  function Output(v: int, max: int, scale: int, exponent: nat, multiplier: int, leftShift: nat): int {
    var diff := S32(v - max);
    if Counted(diff, leftShift)
    then Clamp(S32(Rdpot(Srdhm(scale, ExpOf(diff, multiplier, leftShift)), exponent) - 128), -128, 127)
    else -128
  }

  /** The exponent the outputs are divided by; the code asserts that it is from 0 to 31. */
  function ExponentOf(sum: int): int {
    GetReciprocal(sum, ACCUMULATION_INTEGER_BITS).1 + 31 - 8
  }

  predicate Accepted(input: seq<int>, multiplier: int, leftShift: nat) {
    input != [] && 0 <= ExponentOf(SumOfExps(input, MaxOf(input), multiplier, leftShift)) <= 31
  }

  /** The three passes over a row. Nothing is returned for an empty row or where the assertion on the exponent fails. */
  method SoftmaxInt8(input: seq<int>, multiplier: int, leftShift: nat) returns (ok: bool, output: seq<int>)
    ensures ok <==> Accepted(input, multiplier, leftShift)
    ensures ok ==> |output| == |input| && forall i :: 0 <= i < |input| ==>
                     var sum := SumOfExps(input, MaxOf(input), multiplier, leftShift);
                     output[i] == Output(input[i], MaxOf(input), GetReciprocal(sum, ACCUMULATION_INTEGER_BITS).0, ExponentOf(sum),
                                         multiplier, leftShift)
  {
    hide ExpOf, GetReciprocal, InputRadius, S32, Srdhm, Rdpot, Rescale;
    ok, output := false, [];
    if input == [] {
      return;
    }
    var max := RowMax(input);
    var sum: Int32 := 0;
    for i := 0 to |input|
      invariant sum == SumOfExps(input[..i], max, multiplier, leftShift)
    {
      assert input[..i + 1][..i] == input[..i];
      var diff := S32(input[i] - max);
      if Counted(diff, leftShift) {
        sum := S32(sum + Rescale(ExpOf(diff, multiplier, leftShift), 0, ACCUMULATION_INTEGER_BITS));
      } else {
        SignedRange(sum);
      }
    }
    assert input[..|input|] == input;
    var (scale, bits) := GetReciprocal(sum, ACCUMULATION_INTEGER_BITS);
    var exponent := bits + 31 - 8;
    if !(0 <= exponent <= 31) {
      return;
    }
    for i := 0 to |input|
      invariant |output| == i
      invariant forall j :: 0 <= j < i ==> output[j] == Output(input[j], max, scale, exponent, multiplier, leftShift)
    {
      var diff := S32(input[i] - max);
      if Counted(diff, leftShift) {
        var shifted := S32(Rdpot(Srdhm(scale, ExpOf(diff, multiplier, leftShift)), exponent) - 128);
        output := output + [Clamp(shifted, -128, 127)];
      } else {
        output := output + [-128];
      }
    }
    ok := true;
  }

  // ----- bounds -----

  predicate Int8Row(input: seq<int>) {
    input != [] && forall i :: 0 <= i < |input| ==> -128 <= input[i] <= 127
  }

  predicate Scaling(multiplier: int, leftShift: nat) {
    0x4000_0000 <= multiplier <= MAX32 && leftShift <= 31
  }

  /** A counted difference can be shifted without wrapping, and scales to an argument the exponential takes. */
  lemma ScaledRange(diff: int, multiplier: int, leftShift: nat)
    requires -255 <= diff <= 0 && Scaling(multiplier, leftShift) && Counted(diff, leftShift)
    ensures -31 * 0x400_0000 <= MultiplyByQuantizedMultiplier(diff, multiplier, leftShift) <= 0
    ensures S32(diff * Pow2(leftShift)) == diff * Pow2(leftShift)
  {
    var p := Pow2(leftShift);
    var r := InputRadius(leftShift);
    DivBounds(31 * 0x400_0000, p);
    MulMono(-diff, r, p);
    MulMono(0, -diff, p);
    assert (-diff) * p == -(diff * p);
    var x := diff * p;
    SignedRange(x);
    SignedRange(multiplier);
    hide InputRadius;
    ProductBetween(multiplier, x, 0x4000_0000, MAX32, -31 * 0x400_0000, 0);
    assert multiplier * x == x * multiplier;
    SrdhmBetween(x, multiplier, -31 * 0x400_0000, 0);
    assert Rdpot(Srdhm(x, multiplier), 0) == Srdhm(x, multiplier) by { SignedRange(Srdhm(x, multiplier)); }
  }

  lemma TopTerm(multiplier: int, leftShift: nat)
    requires Scaling(multiplier, leftShift)
    ensures Counted(0, leftShift) && ExpOf(0, multiplier, leftShift) == MAX32
    ensures Rescale(MAX32, 0, ACCUMULATION_INTEGER_BITS) == 0x8_0000
  {
    DivBounds(31 * 0x400_0000, Pow2(leftShift));
    assert InputRadius(leftShift) >= 0 by {
      if InputRadius(leftShift) < 0 { MulMono(InputRadius(leftShift), -1, Pow2(leftShift)); }
    }
    ScaledRange(0, multiplier, leftShift);
    SrdhmExact(0, multiplier);
    assert Pow2(12) == 4096;
    RdpotExact(MAX32, 12);
    SignedRange(MAX32);
  }

  lemma CountedTerm(diff: int, multiplier: int, leftShift: nat)
    requires -255 <= diff <= 0 && Scaling(multiplier, leftShift) && Counted(diff, leftShift)
    ensures var e := ExpOf(diff, multiplier, leftShift);
            0 <= e <= MAX32 && 0 <= Rescale(e, 0, ACCUMULATION_INTEGER_BITS) <= 0x8_0000
  {
    hide Exp, MultiplyByQuantizedMultiplier, InputRadius, Scaling, Rdpot;
    ScaledRange(diff, multiplier, leftShift);
    ExpRange(MultiplyByQuantizedMultiplier(diff, multiplier, leftShift));
    var e := ExpOf(diff, multiplier, leftShift);
    SignedRange(e);
    assert Pow2(12) == 4096;
    RdpotBetween(e, 12, 0, 0x8_0000);
  }

  /** Each element adds at most 2^19, the largest one exactly that. */
  lemma TermRange(v: int, max: int, multiplier: int, leftShift: nat)
    requires -128 <= v <= max <= 127 && Scaling(multiplier, leftShift)
    ensures 0 <= Term(v, max, multiplier, leftShift) <= 0x8_0000
    ensures v == max ==> Term(v, max, multiplier, leftShift) == 0x8_0000
  {
    hide ExpOf, Counted, Scaling, Rescale;
    var diff := v - max;
    SignedRange(diff);
    if Counted(diff, leftShift) {
      CountedTerm(diff, multiplier, leftShift);
    }
    TopTerm(multiplier, leftShift);
  }

  /** The sum as a number, before it is cut to a word. */
  function TrueSum(input: seq<int>, max: int, multiplier: int, leftShift: nat): int {
    if input == [] then 0
    else
      var n := |input| - 1;
      TrueSum(input[..n], max, multiplier, leftShift) + Term(input[n], max, multiplier, leftShift)
  }

  predicate AtMost(input: seq<int>, max: int) {
    max <= 127 && forall i :: 0 <= i < |input| ==> -128 <= input[i] <= max
  }

  predicate AllEqual(input: seq<int>, v: int) {
    forall i :: 0 <= i < |input| ==> input[i] == v
  }

  /** For fewer than 4096 elements the sum does not wrap; it is at least 2^19 if the maximum is among them. */
  lemma {:induction false} SumRange(input: seq<int>, max: int, multiplier: int, leftShift: nat)
    requires |input| <= 4095 && Scaling(multiplier, leftShift) && AtMost(input, max)
    ensures var sum := TrueSum(input, max, multiplier, leftShift);
            && SumOfExps(input, max, multiplier, leftShift) == sum && 0 <= sum <= |input| * 0x8_0000
            && (max in input ==> sum >= 0x8_0000) && (AllEqual(input, max) ==> sum == |input| * 0x8_0000)
    decreases |input|
  {
    hide Term, Scaling;
    if input != [] {
      var n := |input| - 1;
      var front := input[..n];
      assert forall i :: 0 <= i < n ==> front[i] == input[i];
      SumRange(front, max, multiplier, leftShift);
      TermRange(input[n], max, multiplier, leftShift);
      SignedRange(TrueSum(input, max, multiplier, leftShift));
      assert input == front + [input[n]];
    }
  }

  lemma {:induction false} BitLengthBounds(x: nat)
    requires x > 0
    ensures BitLength(x) > 0 && Pow2(BitLength(x) - 1) <= x < Pow2(BitLength(x))
    decreases x
  {
    if x > 1 {
      BitLengthBounds(x / 2);
    }
  }

  lemma {:induction false} Pow2Mono(a: nat, b: nat)
    requires a <= b
    ensures Pow2(a) <= Pow2(b)
    decreases b
  {
    if a < b {
      Pow2Mono(a, b - 1);
    }
  }

  lemma LengthAtMost(x: nat, n: nat)
    requires x > 0
    ensures BitLength(x) <= n <==> x < Pow2(n)
  {
    BitLengthBounds(x);
    if BitLength(x) <= n { Pow2Mono(BitLength(x), n); } else { Pow2Mono(n, BitLength(x) - 1); }
  }

  lemma SomePowers()
    ensures Pow2(19) == 0x8_0000 && Pow2(28) == 0x1000_0000 && Pow2(31) == TWO31
  {
    assert Pow2(8) == 256;
    assert Pow2(16) == 65536;
    assert Pow2(24) == 0x100_0000;
  }

  /** The exponent counts the bits of the sum, so the assertion on it says that the sum is below 2^28. */
  lemma ExponentRange(sum: int)
    requires 0x8_0000 <= sum < TWO31
    ensures ExponentOf(sum) == BitLength(sum) + 3 && 23 <= ExponentOf(sum) <= 34
    ensures ExponentOf(sum) <= 31 <==> sum < 0x1000_0000
  {
    SignedRange(sum);
    SomePowers();
    hide BitLength, Pow2;
    LengthAtMost(sum, 19);
    LengthAtMost(sum, 28);
    LengthAtMost(sum, 31);
  }

  /** The row is accepted exactly if its exponentials sum to less than 2^28. */
  lemma AcceptedExactly(input: seq<int>, multiplier: int, leftShift: nat)
    requires Int8Row(input) && |input| <= 4095 && Scaling(multiplier, leftShift)
    ensures var sum := TrueSum(input, MaxOf(input), multiplier, leftShift);
            && 0x8_0000 <= sum == SumOfExps(input, MaxOf(input), multiplier, leftShift)
            && (Accepted(input, multiplier, leftShift) <==> sum < 0x1000_0000)
  {
    hide TrueSum, SumOfExps, ExponentOf;
    MaxIsMax(input);
    SumRange(input, MaxOf(input), multiplier, leftShift);
    ExponentRange(TrueSum(input, MaxOf(input), multiplier, leftShift));
  }

  /** No row of up to 511 elements fails, whatever its values and the scaling; from 512 elements on some do. */
  lemma UpTo511(input: seq<int>, multiplier: int, leftShift: nat)
    requires Int8Row(input) && Scaling(multiplier, leftShift)
    ensures |input| <= 511 ==> Accepted(input, multiplier, leftShift)
    ensures 512 <= |input| <= 4095 && AllEqual(input, input[0]) ==> !Accepted(input, multiplier, leftShift)
  {
    hide TrueSum, SumOfExps, Accepted, Scaling;
    if |input| <= 4095 {
      MaxIsMax(input);
      SumRange(input, MaxOf(input), multiplier, leftShift);
      AcceptedExactly(input, multiplier, leftShift);
    }
  }

  // ----- rows of any length -----

  /** The sum that is kept is the true one cut to a word, however long the row. */
  lemma {:induction false} SumWraps(input: seq<int>, max: int, multiplier: int, leftShift: nat)
    ensures SumOfExps(input, max, multiplier, leftShift) == S32(TrueSum(input, max, multiplier, leftShift))
    decreases |input|
  {
    hide Term;
    if input != [] {
      var n := |input| - 1;
      SumWraps(input[..n], max, multiplier, leftShift);
      var sum, term := TrueSum(input[..n], max, multiplier, leftShift), Term(input[n], max, multiplier, leftShift);
      WrappedTerm(sum, term);
    }
  }

  lemma WrappedTerm(sum: int, term: int)
    ensures S32(S32(sum) + term) == S32(sum + term)
  {
    var k := (S32(sum) - sum) / TWO32;
    U32Of(sum);
    assert S32(sum) == sum + k * TWO32;
    Congruent(S32(sum) + term, sum + term, k);
  }

  /** Whatever the sum is, the assertion looks at its word alone. */
  lemma ExponentOfWord(sum: int)
    ensures ExponentOf(sum) == BitLength(U32(sum)) + 3 >= 3
    ensures ExponentOf(sum) <= 31 <==> U32(sum) < 0x1000_0000
  {
    SomePowers();
    hide Pow2, Normalised, Result;
    if U32(sum) > 0 {
      LengthAtMost(U32(sum), 28);
    }
  }

  /** A row of any length is accepted exactly if the word its exponentials sum to is below 2^28. */
  lemma AcceptedByWord(input: seq<int>, multiplier: int, leftShift: nat)
    requires input != []
    ensures Accepted(input, multiplier, leftShift) <==> U32(TrueSum(input, MaxOf(input), multiplier, leftShift)) < 0x1000_0000
  {
    hide TrueSum, SumOfExps, ExponentOf, S32;
    SumWraps(input, MaxOf(input), multiplier, leftShift);
    U32Of(TrueSum(input, MaxOf(input), multiplier, leftShift));
    ExponentOfWord(SumOfExps(input, MaxOf(input), multiplier, leftShift));
  }

  lemma {:induction false} EqualSum(input: seq<int>, v: int, multiplier: int, leftShift: nat)
    requires AllEqual(input, v) && -128 <= v <= 127 && Scaling(multiplier, leftShift)
    ensures TrueSum(input, v, multiplier, leftShift) == |input| * 0x8_0000
    decreases |input|
  {
    hide Term, Scaling;
    if input != [] {
      EqualSum(input[..|input| - 1], v, multiplier, leftShift);
      TermRange(v, v, multiplier, leftShift);
    }
  }

  /** Equal elements, however many, are accepted exactly if their number modulo 8192 is below 512: the assertion fails
      from 512 elements on, and passes again on a sum that has wrapped from 8192 on. */
  lemma EqualRows(input: seq<int>, multiplier: int, leftShift: nat)
    requires Int8Row(input) && AllEqual(input, input[0]) && Scaling(multiplier, leftShift)
    ensures Accepted(input, multiplier, leftShift) <==> |input| % 8192 < 512
  {
    hide TrueSum, Accepted, Scaling;
    MaxIsMax(input);
    AcceptedByWord(input, multiplier, leftShift);
    EqualSum(input, MaxOf(input), multiplier, leftShift);
    var n := |input|;
    DivModUnique(n * 0x8_0000, TWO32, n / 8192, (n % 8192) * 0x8_0000);
  }

  // ----- order -----

  /** A larger exponential never gets the smaller output. */
  lemma OutputMono(scale: Int32, exponent: nat, e: Int32, f: Int32)
    requires scale > 0 && 0 <= e <= f && exponent > 0
    ensures Clamp(S32(Rdpot(Srdhm(scale, e), exponent) - 128), -128, 127) <= Clamp(S32(Rdpot(Srdhm(scale, f), exponent) - 128), -128, 127)
  {
    SrdhmExact(scale, e);
    SrdhmExact(scale, f);
    MulMono(e, f, scale);
    MulMono(0, e, scale);
    assert e * scale == scale as int * e as int && f * scale == scale as int * f as int;
    var p, q := Srdhm(scale, e), Srdhm(scale, f);
    RoundUpMono(scale as int * e as int, scale as int * f as int, TWO31);
    RoundUpMono(0, scale as int * e as int, TWO31);
    RdpotExact(p, exponent);
    RdpotExact(q, exponent);
    hide Srdhm, Rdpot, RoundUp;
    RoundAwayMono(p, q, Pow2(exponent));
    SignedRange(Rdpot(p, exponent) - 128);
    SignedRange(Rdpot(q, exponent) - 128);
  }

  lemma TopBit(x: int, lo: int, p: int)
    requires lo <= x < 2 * lo && p > 0
    ensures lo * p <= x * p <= 2 * (lo * p) - p
  {
    MulMono(lo, x, p);
    MulMono(x, 2 * lo - 1, p);
    assert (2 * lo - 1) * p == 2 * (lo * p) - p;
  }

  /** The leading bit of the sum is shifted to the top, so the reciprocal's argument is a fraction. */
  lemma NormalisedRange(sum: int)
    requires 0 < sum < TWO31
    ensures 0 <= CountLeadingZeros(sum) <= 32
    ensures Normalised(sum) >= 0 && Normalised(sum) + TWO31 == sum * Pow2(CountLeadingZeros(sum))
  {
    SomePowers();
    LengthAtMost(sum, 31);
    BitLengthBounds(sum);
    var n := BitLength(sum);
    var p := Pow2(32 - n);
    Pow2Add(n - 1, 32 - n);
    assert Pow2(n) == 2 * Pow2(n - 1);
    hide Pow2, BitLength;
    TopBit(sum, Pow2(n - 1), p);
    TopWord(sum * p);
  }

  lemma TopWord(x: int)
    requires TWO31 <= x < TWO32
    ensures S32(U32(x) - TWO31) == x - TWO31
  {
    SignedRange(x - TWO31);
  }

  lemma ScalePositive(sum: int)
    requires 0 < sum < TWO31
    ensures GetReciprocal(sum, ACCUMULATION_INTEGER_BITS).0 > 0
  {
    hide Normalised, Result, CountLeadingZeros;
    assert U32(sum) == sum;
    NormalisedRange(sum);
    PositiveResult(Normalised(sum));
  }

  lemma PositiveResult(a: Int32)
    requires a >= 0
    ensures Result(a) > 0
  {
    hide Result, NewtonSteps, Clamp;
    ResultClose(a);
  }

  /** A counted difference that is larger has no smaller exponential. */
  lemma ExpOfMono(d: int, e: int, multiplier: int, leftShift: nat)
    requires -255 <= d <= e <= 0 && Scaling(multiplier, leftShift) && Counted(d, leftShift)
    ensures Counted(e, leftShift) && 0 <= ExpOf(d, multiplier, leftShift) <= ExpOf(e, multiplier, leftShift)
  {
    hide Exp, InputRadius, Srdhm, Pow2, Rdpot, S32;
    var p := Pow2(leftShift);
    ScaledRange(d, multiplier, leftShift);
    ScaledRange(e, multiplier, leftShift);
    MulMono(d, e, p);
    SignedRange(multiplier);
    ScaledIs(d, multiplier, leftShift);
    ScaledIs(e, multiplier, leftShift);
    SrdhmMono(d * p, e * p, multiplier);
    ExpRange(MultiplyByQuantizedMultiplier(d, multiplier, leftShift));
    ExpMono(MultiplyByQuantizedMultiplier(d, multiplier, leftShift), MultiplyByQuantizedMultiplier(e, multiplier, leftShift));
  }

  lemma ScaledIs(d: int, multiplier: int, leftShift: nat)
    requires S32(d * Pow2(leftShift)) == d * Pow2(leftShift)
    ensures MultiplyByQuantizedMultiplier(d, multiplier, leftShift) == Srdhm(d * Pow2(leftShift), multiplier)
  {
    hide Srdhm;
    SignedRange(Srdhm(d * Pow2(leftShift), multiplier));
  }

  /** In every row of up to 511 elements the outputs keep the order of the inputs. */
  lemma OrderKept(input: seq<int>, multiplier: int, leftShift: nat, i: nat, j: nat)
    requires Int8Row(input) && |input| <= 511 && Scaling(multiplier, leftShift) && i < |input| && j < |input| && input[i] <= input[j]
    ensures var sum := SumOfExps(input, MaxOf(input), multiplier, leftShift);
            var scale, exponent := GetReciprocal(sum, ACCUMULATION_INTEGER_BITS).0, ExponentOf(sum);
            exponent >= 0 && -128 <= Output(input[i], MaxOf(input), scale, exponent, multiplier, leftShift)
                                  <= Output(input[j], MaxOf(input), scale, exponent, multiplier, leftShift) <= 127
  {
    hide TrueSum, SumOfExps, GetReciprocal, ExponentOf, ExpOf, Counted, Scaling, Srdhm, Rdpot;
    var max := MaxOf(input);
    MaxIsMax(input);
    AcceptedExactly(input, multiplier, leftShift);
    var sum := SumOfExps(input, max, multiplier, leftShift);
    UpTo511(input, multiplier, leftShift);
    ExponentRange(sum);
    ScalePositive(sum);
    var d, e := input[i] - max, input[j] - max;
    SignedRange(d);
    SignedRange(e);
    if Counted(d, leftShift) {
      ExpOfMono(d, e, multiplier, leftShift);
      OutputMono(GetReciprocal(sum, ACCUMULATION_INTEGER_BITS).0, ExponentOf(sum), ExpOf(d, multiplier, leftShift), ExpOf(e, multiplier, leftShift));
    }
  }

  /** An argmax stays an argmax: the largest input gets the largest output. */
  lemma ArgMaxKept(input: seq<int>, multiplier: int, leftShift: nat, i: nat)
    requires Int8Row(input) && |input| <= 511 && Scaling(multiplier, leftShift) && i < |input|
    ensures var sum := SumOfExps(input, MaxOf(input), multiplier, leftShift);
            var scale, exponent := GetReciprocal(sum, ACCUMULATION_INTEGER_BITS).0, ExponentOf(sum);
            exponent >= 0 && -128 <= Output(input[i], MaxOf(input), scale, exponent, multiplier, leftShift)
                                  <= Output(MaxOf(input), MaxOf(input), scale, exponent, multiplier, leftShift) <= 127
  {
    hide SumOfExps, GetReciprocal, ExponentOf, Scaling, Output;
    MaxIsMax(input);
    var j :| 0 <= j < |input| && input[j] == MaxOf(input);
    OrderKept(input, multiplier, leftShift, i, j);
  }
}
