/** The fixed-point softmax against the real one: no output is further from it than two thirds of a step. */
module SoftmaxAccuracy {
  import opened Words
  import opened FixedPoint
  import opened Rows
  import opened Exponential
  import opened ExponentialAccuracy
  import opened Softmax
  import opened Conservation

  // ----- the exponential below zero -----

  lemma {:induction false} AtMostOne(E: real -> real, x: real, n: nat)
    requires IsExponential(E) && -0.25 * n as real <= x <= 0.0
    ensures 0.0 <= E(x) <= 1.0
    decreases n
  {
    hide IsExponential;
    if x >= -0.25 {
      ExpAtMostOne(E, x);
    } else {
      AtMostOne(E, x + 0.25, n - 1);
      ExpAtMostOne(E, -0.25);
      SumRule(E, x + 0.25, -0.25);
      UnitProduct(E(x + 0.25), E(-0.25));
    }
  }

  lemma UnitBelowZero(E: real -> real, x: real)
    requires IsExponential(E) && x <= 0.0
    ensures 0.0 <= E(x) <= 1.0
  {
    hide IsExponential;
    AtMostOne(E, x, (-4.0 * x).Floor + 1);
  }

  /** A factor at most one more. */
  lemma Shrunk(E: real -> real, x: real, y: real, hi: real)
    requires IsExponential(E) && y <= 0.0 && 0.0 <= E(x) <= hi
    ensures 0.0 <= E(x + y) <= hi
  {
    hide IsExponential;
    SumRule(E, x, y);
    UnitBelowZero(E, y);
    Larger(0.0, E(x), E(y));
    ProductMagnitude(E(x), E(y), hi, 1.0);
  }

  lemma Product(E: real -> real, x: real, y: real, hi: real, hi': real, p: real)
    requires IsExponential(E) && x <= 0.0 && y <= 0.0 && E(x) <= hi && E(y) <= hi' && hi * hi' <= p
    ensures 0.0 <= E(x + y) <= p
  {
    hide IsExponential;
    SumRule(E, x, y);
    UnitBelowZero(E, x);
    UnitBelowZero(E, y);
    Larger(0.0, E(x), E(y));
    ProductMagnitude(E(x), E(y), hi, hi');
  }

  /** From -15.5 on there is next to nothing left, from -31 on nothing at all. */
  lemma Tail(E: real -> real, x: real)
    requires IsExponential(E)
    ensures x <= -15.5 ==> 0.0 <= E(x) <= 0.0000002
    ensures x <= -31.0 ==> 0.0 <= E(x) <= 0.0000000001
  {
    hide IsExponential;
    BarrelValues(E);
    Product(E, -0.5, -1.0, 0.607, 0.368, 0.2234);
    Product(E, -1.5, -2.0, 0.2234, 0.13534, 0.03024);
    Product(E, -3.5, -4.0, 0.03024, 0.01832, 0.000554);
    Product(E, -7.5, -8.0, 0.000554, 0.00033547, 0.0000002);
    Product(E, -8.0, -16.0, 0.00033547, 0.0000001126, 0.0000000001);
    if x <= -15.5 {
      Shrunk(E, -15.5, x + 15.5, 0.0000002);
    }
    if x <= -31.0 {
      Shrunk(E, -24.0, x + 24.0, 0.0000000001);
    }
  }

  // ----- one element -----

  /** The real factor the multiplier and the shift stand for. */
  function Beta(multiplier: int, leftShift: nat): real {
    (multiplier * Pow2(leftShift)) as real / 144115188075855872.0
  }

  /** The real exponential of a number of input steps. */
  function RealExp(E: real -> real, beta: real, v: int): real { E(beta * v as real) }

  lemma RealTimes(x: int, y: int)
    ensures (x * y) as real == x as real * y as real
  {
  }

  /** The fixed-point argument of an element is its real one, to half a unit of 2^-26, until it saturates at -32. */
  lemma ArgumentNear(diff: int, multiplier: int, leftShift: nat)
    requires diff <= 0 && Scaling(multiplier, leftShift)
    ensures var t, x := TrueArgument(diff, multiplier, leftShift), Beta(multiplier, leftShift) * diff as real;
            && x <= 0.0
            && MIN32 <= t <= 0 && (if t > MIN32 then Magnitude(Argument(t) - x) <= 0.0000000075 else x <= -31.0)
  {
    hide RoundUp, Argument, Magnitude, TrueArgument, Scaling, Pow2;
    var k := multiplier * Pow2(leftShift);
    var n := ProductOf(diff, multiplier, leftShift, k);
    Rounded(n);
    RealArgument(k, diff, n, RoundUp(n, TWO31), Beta(multiplier, leftShift), Beta(multiplier, leftShift) * diff as real);
  }

  lemma ProductOf(diff: int, multiplier: int, leftShift: nat, k: int) returns (n: int)
    requires diff <= 0 && Scaling(multiplier, leftShift) && k == multiplier * Pow2(leftShift)
    ensures n == k * diff && n <= 0
    ensures var t := RoundUp(n, TWO31); TrueArgument(diff, multiplier, leftShift) == if t < MIN32 then MIN32 else t
  {
    hide RoundUp;
    n := k * diff;
    MulMono(1, Pow2(leftShift), multiplier);
    MulMono(diff, 0, k);
    assert n == diff * Pow2(leftShift) * multiplier;
  }

  lemma Rounded(n: int)
    requires n <= 0
    ensures RoundUp(n, TWO31) <= 0 && -TWO31 <= 2 * (RoundUp(n, TWO31) * TWO31 - n) <= TWO31
  {
    RoundUpNear(n, TWO31);
    RoundUpMono(n, 0, TWO31);
    RoundUpUnique(0, TWO31, 0);
  }

  lemma RealArgument(k: int, diff: int, n: int, t: int, beta: real, x: real)
    requires beta == k as real / 144115188075855872.0 && x == beta * diff as real
    requires n == k * diff && n <= 0 && t <= 0 && -TWO31 <= 2 * (t * TWO31 - n) <= TWO31
    ensures x <= 0.0 && (t > MIN32 ==> Magnitude(Argument(t) - x) <= 0.0000000075) && (t <= MIN32 ==> x <= -31.0)
  {
    RealTimes(k, diff);
    assert x == n as real / 144115188075855872.0;
    assert -2147483648.0 <= 2.0 * (t as real * 2147483648.0 - n as real) <= 2147483648.0;
  }

  /** A small change of the argument. */
  lemma Shifted(E: real -> real, x: real, y: real)
    requires IsExponential(E) && x <= 0.0 && Magnitude(y - x) <= 0.0000000075
    ensures Magnitude(E(y) - E(x)) <= 0.0000000225
  {
    hide IsExponential;
    var d := y - x;
    SumRule(E, x, d);
    UnitBelowZero(E, x);
    NearOne(E, d);
    assert x + d == y;
    Change(E(x), E(d), E(y));
  }

  lemma Change(u: real, v: real, p: real)
    requires 0.0 <= u <= 1.0 && Magnitude(v - 1.0) <= 0.0000000225 && p == u * v
    ensures Magnitude(p - u) <= 0.0000000225
  {
    ProductMagnitude(u, v - 1.0, 1.0, 0.0000000225);
    assert u * (v - 1.0) == u * v - u;
  }

  lemma NearOne(E: real -> real, d: real)
    requires IsExponential(E) && Magnitude(d) <= 0.0000000075
    ensures Magnitude(E(d) - 1.0) <= 0.0000000225
  {
    SeriesRule(E, d, 0);
    hide IsExponential;
    assert Power(Magnitude(d), 0) == 1.0 && Power(d, 0) == 1.0;
    assert Power(Magnitude(d), 1) == Magnitude(d);
    assert Factorial(1) == 1.0;
    assert Series(d, 0) == 1.0;
  }

  /** An element's exponential, counted or not, against the real one of its real argument. */
  lemma TrueExpNear(E: real -> real, diff: int, multiplier: int, leftShift: nat)
    requires IsExponential(E) && diff <= 0 && Scaling(multiplier, leftShift)
    ensures WordNear(TrueExp(diff, multiplier, leftShift), RealExp(E, Beta(multiplier, leftShift), diff), 560.0)
  {
    hide IsExponential, Beta, Scaling, TrueArgument, Exp;
    var t, x := TrueArgument(diff, multiplier, leftShift), Beta(multiplier, leftShift) * diff as real;
    ArgumentNear(diff, multiplier, leftShift);
    FiveBits(E, t);
    if t > MIN32 {
      Shifted(E, x, Argument(t));
    } else {
      Tail(E, x);
      Tail(E, Argument(t));
    }
    Moved(Exp(t, 5), E(Argument(t)), E(x));
  }

  lemma Moved(w: int, u: real, v: real)
    requires WordNear(w, u, 496.0) && Magnitude(u - v) <= 0.0000000225
    ensures WordNear(w, v, 560.0)
  {
  }

  /** The same for what it brings into the sum. */
  lemma PartNear(E: real -> real, v: int, max: int, diff: int, multiplier: int, leftShift: nat)
    requires IsExponential(E) && -128 <= v <= max <= 127 && Scaling(multiplier, leftShift) && diff == v - max
    ensures WordNear(Part(v, max, multiplier, leftShift), RealExp(E, Beta(multiplier, leftShift), diff), 560.0)
  {
    hide IsExponential, Beta, Scaling, TrueExp, Counted, ExpOf;
    SignedRange(diff);
    if Counted(diff, leftShift) {
      CountedExp(diff, multiplier, leftShift);
      TrueExpNear(E, diff, multiplier, leftShift);
    } else {
      UncountedFar(diff, multiplier, leftShift);
      Tail(E, Beta(multiplier, leftShift) * diff as real);
    }
  }

  lemma UncountedFar(diff: int, multiplier: int, leftShift: nat)
    requires diff <= 0 && Scaling(multiplier, leftShift) && !Counted(diff, leftShift)
    ensures Beta(multiplier, leftShift) * diff as real <= -15.5
  {
    hide Counted, Pow2;
    CountedExactly(diff, leftShift);
    var y := -diff * Pow2(leftShift);
    MulMono(0x4000_0000, multiplier, y);
    var k := multiplier * Pow2(leftShift);
    assert k * diff == -(multiplier * y);
    RealTimes(k, diff);
    FarProduct(k, diff, k * diff, Beta(multiplier, leftShift), Beta(multiplier, leftShift) * diff as real);
  }

  lemma FarProduct(k: int, diff: int, n: int, beta: real, x: real)
    requires n == k * diff && n <= -31 * 0x400_0000 * 0x4000_0000 && beta == k as real / 144115188075855872.0 && x == beta * diff as real
    ensures x <= -15.5
  {
    RealTimes(k, diff);
    assert x == n as real / 144115188075855872.0;
  }

  // ----- the row -----

  /** The denominator of the real softmax. */
  function RealTotal(E: real -> real, input: seq<int>, beta: real): real {
    if input == [] then 0.0 else RealTotal(E, input[..|input| - 1], beta) + RealExp(E, beta, input[|input| - 1])
  }

  /** Taking the maximum off multiplies every exponential by the same number. */
  lemma MaximumOff(E: real -> real, v: int, max: int, diff: int, beta: real)
    requires IsExponential(E) && diff == v - max
    ensures RealExp(E, beta, diff) == RealExp(E, beta, -max) * RealExp(E, beta, v)
  {
    hide IsExponential;
    var x, y, z := beta * v as real, beta * (-max) as real, beta * diff as real;
    assert z == x + y;
    SumRule(E, x, y);
  }

  lemma NotNegative(E: real -> real, beta: real, v: int)
    requires IsExponential(E)
    ensures RealExp(E, beta, v) >= 0.0
  {
    hide IsExponential;
    var x := beta * v as real;
    var y := x / 2.0;
    assert y + y == x;
    SumRule(E, y, y);
    var h := E(y);
    assert h * h >= 0.0;
  }

  /** A sum of `n` words against `k` times a real total. */
  predicate SumNear(sum: int, k: real, total: real, n: nat) {
    UnitsNear(sum as real, k * total, 560.0 * n as real)
  }

  lemma {:induction false} PartsNear(E: real -> real, input: seq<int>, max: int, multiplier: int, leftShift: nat, k: real)
    requires IsExponential(E) && Softmax.AtMost(input, max) && Scaling(multiplier, leftShift) && k == RealExp(E, Beta(multiplier, leftShift), -max)
    ensures SumNear(Parts(input, max, multiplier, leftShift), k, RealTotal(E, input, Beta(multiplier, leftShift)), |input|)
    decreases |input|
  {
    hide IsExponential, Beta, Scaling, Part, RealExp, SumNear;
    var beta := Beta(multiplier, leftShift);
    if input == [] {
      NoTerms(k);
    } else {
      var n := |input| - 1;
      PartsNear(E, input[..n], max, multiplier, leftShift, k);
      PartNear(E, input[n], max, input[n] - max, multiplier, leftShift);
      MaximumOff(E, input[n], max, input[n] - max, beta);
      hide RealTotal, Parts;
      OneMoreTerm(Parts(input[..n], max, multiplier, leftShift), Part(input[n], max, multiplier, leftShift), RealTotal(E, input[..n], beta),
                  RealExp(E, beta, input[n]), RealExp(E, beta, input[n] - max), k, n, Parts(input, max, multiplier, leftShift), RealTotal(E, input, beta));
    }
  }

  lemma NoTerms(k: real)
    ensures SumNear(0, k, 0.0, 0)
  {
  }

  lemma OneMoreTerm(a: int, b: int, r: real, e: real, ke: real, k: real, n: nat, sum: int, total: real)
    requires SumNear(a, k, r, n) && WordNear(b, ke, 560.0) && ke == k * e && total == r + e && sum == a + b
    ensures SumNear(sum, k, total, n + 1)
  {
    assert k * total == k * r + k * e;
  }

  /** The denominator is at least each of its terms. */
  lemma {:induction false} TotalAtLeast(E: real -> real, input: seq<int>, beta: real, v: int)
    requires IsExponential(E)
    ensures RealTotal(E, input, beta) >= 0.0 && (v in input ==> RealTotal(E, input, beta) >= RealExp(E, beta, v))
    decreases |input|
  {
    hide IsExponential, RealExp;
    if input != [] {
      var n := |input| - 1;
      TotalAtLeast(E, input[..n], beta, v);
      NotNegative(E, beta, input[n]);
      assert input == input[..n] + [input[n]];
    }
  }

  lemma ScaledTotal(E: real -> real, input: seq<int>, beta: real, max: int)
    requires IsExponential(E) && max in input
    ensures var k := RealExp(E, beta, -max); k > 0.0 && k * RealTotal(E, input, beta) >= 1.0
  {
    hide IsExponential, RealExp;
    TotalAtLeast(E, input, beta, max);
    NotNegative(E, beta, -max);
    MaximumOff(E, max, max, 0, beta);
    AtMaximum(E, beta);
    Inverse(RealExp(E, beta, max), RealExp(E, beta, -max), RealTotal(E, input, beta));
  }

  lemma AtMaximum(E: real -> real, beta: real)
    requires IsExponential(E)
    ensures RealExp(E, beta, 0) == 1.0
  {
    hide IsExponential;
    AtZero(E);
    assert beta * 0.0 == 0.0;
  }

  lemma Inverse(top: real, k: real, r: real)
    requires k >= 0.0 && 1.0 == k * top && r >= top
    ensures k > 0.0 && k * r >= 1.0
  {
    assert k != 0.0;
    Larger(0.0, r - top, k);
    assert k * r == k * top + (r - top) * k;
  }

  // ----- the result -----

  /** `q / 256` is `x / s` within 0.66 in 256. */
  predicate Close(q: real, s: real, x: real) {
    Magnitude(q * s - 256.0 * x) <= 0.66 * s
  }

  /** Four bounds put together: the share, the sum, the terms, the exponential of the element. */
  lemma Together(q: int, sum: int, parts: int, e: int, n: nat, s: real, x: real)
    requires 0 <= q && 0 <= e <= MAX32 && 0x8_0000 <= sum && n <= 511 && s >= 1.0
    requires -(16 * sum + 1024) <= 2 * (16 * (q * sum) - e) <= 16 * sum + 1024 && -(n * 4096) <= 2 * (sum * 4096 - parts) <= n * 4096
    requires UnitsNear(parts as real, s, 560.0 * n as real) && WordNear(e, x, 560.0)
    ensures Close(q as real, s, x)
  {
    ShareSmall(q, sum, e);
    var a := 4096.0 * sum as real;
    assert Magnitude(a - s * 2147483648.0) <= 2608.0 * 511.0;
    InReals(q, sum, e, q * sum, q as real, a, s, x);
  }

  lemma InReals(q: int, sum: int, e: int, p: int, r: real, a: real, s: real, x: real)
    requires p == q * sum && -(16 * sum + 1024) <= 2 * (16 * p - e) <= 16 * sum + 1024 && a == 4096.0 * sum as real
    requires 0 <= q <= 256 && r == q as real && s >= 1.0 && WordNear(e, x, 560.0) && Magnitude(a - s * 2147483648.0) <= 2608.0 * 511.0
    ensures Close(r, s, x)
  {
    RealTimes(q, sum);
    var y := 4096.0 * p as real;
    assert y == r * a;
    assert Magnitude(2.0 * (y - 256.0 * e as real)) <= a + 262144.0;
    Final(r, a, s, e as real, x, y, a - s * 2147483648.0);
  }

  lemma ShareSmall(q: int, sum: int, e: int)
    requires 0 <= q && 0 <= e <= MAX32 && 0x8_0000 <= sum && 2 * (16 * (q * sum) - e) <= 16 * sum + 1024
    ensures q <= 256
  {
    if q >= 257 {
      MulMono(257, q, sum);
    }
  }

  lemma Final(q: real, a: real, s: real, e: real, x: real, y: real, d: real)
    requires 0.0 <= q <= 256.0 && s >= 1.0 && y == q * a && Magnitude(2.0 * (y - 256.0 * e)) <= a + 262144.0 && UnitsNear(e, x, 560.0)
    requires d == a - s * 2147483648.0 && Magnitude(d) <= 2608.0 * 511.0
    ensures Close(q, s, x)
  {
    ProductMagnitude(q, d, 256.0, 2608.0 * 511.0);
    Distributed(q, a, s, y, d, q * d, q * s);
    CloseBy(q, s, x, q * s);
  }

  lemma Distributed(q: real, a: real, s: real, y: real, d: real, z: real, w: real)
    requires y == q * a && d == a - s * 2147483648.0 && z == q * d && w == q * s
    ensures z == y - w * 2147483648.0
  {
    assert q * d == q * a - q * (s * 2147483648.0);
  }

  lemma CloseBy(q: real, s: real, x: real, w: real)
    requires w == q * s && -0.66 * s <= w - 256.0 * x <= 0.66 * s
    ensures Close(q, s, x)
  {
  }

  /** Both sides without the common factor. */
  lemma Cancelled(q: real, k: real, r: real, x: real, kr: real, kx: real)
    requires k > 0.0 && kr == k * r && kx == k * x && kr > 0.0 && Close(q, kr, kx)
    ensures r > 0.0 && Close(q, r, x)
  {
    if r <= 0.0 {
      Larger(r, 0.0, k);
    }
    var d, f := q * r - 256.0 * x, 0.66 * r;
    assert q * kr - 256.0 * kx == k * d;
    assert k * (d - f) == k * d - 0.66 * kr && k * (-d - f) == -(k * d) - 0.66 * kr;
    if d > f {
      assert k * (d - f) > 0.0;
    }
    if -d > f {
      assert k * (-d - f) > 0.0;
    }
  }

  /** `q` is within two thirds of 256 parts in `total` of `part`. */
  predicate NearShare(q: int, total: real, part: real) {
    total > 0.0 && Close(q as real, total, part)
  }

  /** Accuracy. In every row of up to 511 elements each output is a share less 128, clamped, and the share is within two
      thirds of a step of 256 times the real softmax exp(b x_i) / (exp(b x_1) + ... + exp(b x_n)). */
  lemma SoftmaxAccurate(E: real -> real, input: seq<int>, multiplier: int, leftShift: nat, i: nat)
    requires IsExponential(E) && Int8Row(input) && |input| <= 511 && Scaling(multiplier, leftShift) && i < |input|
    ensures var max, sum, beta := MaxOf(input), SumOfExps(input, MaxOf(input), multiplier, leftShift), Beta(multiplier, leftShift);
            var scale, exponent := GetReciprocal(sum, ACCUMULATION_INTEGER_BITS).0, ExponentOf(sum);
            && scale > 0 && exponent >= 23
            && var q := Share(input[i], max, scale, exponent, multiplier, leftShift);
               && Output(input[i], max, scale, exponent, multiplier, leftShift) == Clamp(q - 128, -128, 127)
               && NearShare(q, RealTotal(E, input, beta), RealExp(E, beta, input[i]))
  {
    hide IsExponential, Int8Row, Scaling, Beta, TrueExp, RealExp, RealTotal, SumOfExps, GetReciprocal, ExponentOf, Share, Output, Proportional, Parts, NearShare, TrueSum, Clamp;
    var max, sum := MaxOf(input), SumOfExps(input, MaxOf(input), multiplier, leftShift);
    RowBelow(input);
    AcceptedExactly(input, multiplier, leftShift);
    ShareFacts(input, multiplier, leftShift, i);
    var scale, exponent := GetReciprocal(sum, ACCUMULATION_INTEGER_BITS).0, ExponentOf(sum);
    TermsNear(input, max, multiplier, leftShift);
    RealSide(E, input, multiplier, leftShift, i, Share(input[i], max, scale, exponent, multiplier, leftShift), sum);
  }

  /** A share is its exponential over sixteen times the sum, to half a unit and a little. */
  predicate Proportional(q: int, sum: int, e: int) {
    0 <= q && 0 <= e <= MAX32 && -(16 * sum + 1024) <= 2 * (16 * (q * sum) - e) <= 16 * sum + 1024
  }

  lemma ShareFacts(input: seq<int>, multiplier: int, leftShift: nat, i: nat)
    requires Int8Row(input) && |input| <= 511 && Scaling(multiplier, leftShift) && i < |input|
    ensures var max, sum := MaxOf(input), SumOfExps(input, MaxOf(input), multiplier, leftShift);
            var scale, exponent := GetReciprocal(sum, ACCUMULATION_INTEGER_BITS).0, ExponentOf(sum);
            && scale > 0 && exponent >= 23
            && var q := Share(input[i], max, scale, exponent, multiplier, leftShift);
               && Output(input[i], max, scale, exponent, multiplier, leftShift) == Clamp(q - 128, -128, 127)
               && Proportional(q, sum, TrueExp(input[i] - max, multiplier, leftShift))
  {
    hide Int8Row, Scaling, TrueExp, SumOfExps, GetReciprocal, ExponentOf, Share, Output, Srdhm, Rdpot;
    RowBelow(input);
    var max, sum := MaxOf(input), SumOfExps(input, MaxOf(input), multiplier, leftShift);
    ShareOfElement(input, multiplier, leftShift, i);
    var scale, exponent := GetReciprocal(sum, ACCUMULATION_INTEGER_BITS).0, ExponentOf(sum);
    EveryOutput(input[i], max, scale, exponent, multiplier, leftShift);
    OutputIsShare(input[i], max, scale, exponent, multiplier, leftShift);
    TrueExpRange(input[i] - max, multiplier, leftShift);
  }

  lemma RealSide(E: real -> real, input: seq<int>, multiplier: int, leftShift: nat, i: nat, q: int, sum: int)
    requires input != [] && IsExponential(E) && Softmax.AtMost(input, MaxOf(input)) && MaxOf(input) in input && |input| <= 511 && Scaling(multiplier, leftShift)
    requires i < |input| && 0x8_0000 <= sum && Proportional(q, sum, TrueExp(input[i] - MaxOf(input), multiplier, leftShift))
    requires -(|input| * 4096) <= 2 * (sum * 4096 - Parts(input, MaxOf(input), multiplier, leftShift)) <= |input| * 4096
    ensures NearShare(q, RealTotal(E, input, Beta(multiplier, leftShift)), RealExp(E, Beta(multiplier, leftShift), input[i]))
  {
    hide IsExponential, Scaling, Beta, TrueExp, RealExp, RealTotal, Proportional, Parts, SumNear, WordNear, NearShare, TrueArgument;
    var max, beta := MaxOf(input), Beta(multiplier, leftShift);
    var k, r := RealExp(E, beta, -max), RealTotal(E, input, beta);
    PartsNear(E, input, max, multiplier, leftShift, k);
    ScaledTotal(E, input, beta, max);
    TrueExpNear(E, input[i] - max, multiplier, leftShift);
    MaximumOff(E, input[i], max, input[i] - max, beta);
    Shared(q, sum, Parts(input, max, multiplier, leftShift), TrueExp(input[i] - max, multiplier, leftShift), |input|, k, r,
           RealExp(E, beta, input[i]), k * r, RealExp(E, beta, input[i] - max));
  }

  lemma RowBelow(input: seq<int>)
    requires Int8Row(input)
    ensures input != [] && MaxOf(input) in input && Softmax.AtMost(input, MaxOf(input)) && forall i :: 0 <= i < |input| ==> -128 <= input[i] <= MaxOf(input) <= 127
  {
    MaxIsMax(input);
  }

  lemma Shared(q: int, sum: int, parts: int, e: int, n: nat, k: real, r: real, x: real, kr: real, kx: real)
    requires Proportional(q, sum, e) && 0x8_0000 <= sum && n <= 511 && k > 0.0 && kr == k * r && kr >= 1.0 && kx == k * x
    requires -(n * 4096) <= 2 * (sum * 4096 - parts) <= n * 4096 && SumNear(parts, k, r, n) && WordNear(e, kx, 560.0)
    ensures NearShare(q, r, x)
  {
    hide Magnitude, Close;
    assert UnitsNear(parts as real, kr, 560.0 * n as real);
    Together(q, sum, parts, e, n, kr, kx);
    Cancelled(q as real, k, r, x, kr, kx);
  }
}
