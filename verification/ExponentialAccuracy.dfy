/** How far the fixed-point exponential is from the real one: within 530 units of 2^-31, for every argument. */
module ExponentialAccuracy {
  import opened Words
  import opened FixedPoint
  import opened Exponential

  // ----- the exponential -----

  function Power(x: real, n: nat): real {
    if n == 0 then 1.0 else x * Power(x, n - 1)
  }

  function Factorial(n: nat): (f: real)
    ensures f >= 1.0
  {
    if n == 0 then 1.0 else n as real * Factorial(n - 1)
  }

  /** The exponential series up to the power `n`. */
  function Series(x: real, n: nat): real {
    Power(x, n) / Factorial(n) + if n == 0 then 0.0 else Series(x, n - 1)
  }

  function Magnitude(x: real): real {
    if x < 0.0 then -x else x
  }

  /** What makes a function the exponential: it turns sums into products, and near zero it is its series, up to the
      remainder. No other function does, as the remainder goes to zero. */
  ghost predicate IsExponential(E: real -> real) {
    && (forall x: real, y: real :: E(x + y) == E(x) * E(y))
    && (forall x: real, n: nat :: -1.0 <= x <= 1.0 ==> Magnitude(E(x) - Series(x, n)) <= 3.0 * Power(Magnitude(x), n + 1) / Factorial(n + 1))
  }

  lemma SumRule(E: real -> real, x: real, y: real)
    requires IsExponential(E)
    ensures E(x + y) == E(x) * E(y)
  {
  }

  lemma SeriesRule(E: real -> real, x: real, n: nat)
    requires IsExponential(E) && -1.0 <= x <= 1.0
    ensures Magnitude(E(x) - Series(x, n)) <= 3.0 * Power(Magnitude(x), n + 1) / Factorial(n + 1)
  {
  }

  // ----- errors of the fixed-point operations -----

  /** So many units are within `e` of the fraction `v`. */
  predicate UnitsNear(units: real, v: real, e: real) {
    Magnitude(units - v * 2147483648.0) <= e
  }

  predicate WordNear(w: int, v: real, e: real) {
    UnitsNear(w as real, v, e)
  }

  lemma RealProduct(x: int, y: int)
    ensures (x * y) as real == x as real * y as real
  {
  }

  lemma ProductMagnitude(x: real, y: real, mx: real, my: real)
    requires Magnitude(x) <= mx && Magnitude(y) <= my
    ensures Magnitude(x * y) <= mx * my
  {
    var a, b := Magnitude(x), Magnitude(y);
    assert a * b <= mx * b <= mx * my;
    assert x * y == a * b || x * y == -(a * b);
  }

  /** A rounded product of two approximations. */
  lemma ProductError(s: real, x: real, y: real, z: real, a: real, b: real, p: real, ea: real, eb: real, my: real, ma: real, e: real)
    requires y == z * 2147483648.0 && Magnitude(s - x * z) <= 0.5 && UnitsNear(x, a, ea) && UnitsNear(y, b, eb)
    requires Magnitude(z) <= my && Magnitude(a) <= ma && p == a * b && ea * my + ma * eb + 0.5 <= e
    ensures UnitsNear(s, p, e)
  {
    hide Magnitude;
    var u, v := x - a * 2147483648.0, y - b * 2147483648.0;
    var f, g, t := u * z, a * v, x * z;
    assert Magnitude(u) <= ea && Magnitude(v) <= eb;
    ProductMagnitude(u, z, ea, my);
    ProductMagnitude(a, v, ma, eb);
    Telescope(x, y, a, b, z);
    Gather(s, t, p, f, g, ea * my, ma * eb, e);
  }

  lemma Gather(s: real, t: real, p: real, u: real, v: real, e: real, f: real, g: real)
    requires Magnitude(s - t) <= 0.5 && t - p * 2147483648.0 == u + v && Magnitude(u) <= e && Magnitude(v) <= f && e + f + 0.5 <= g
    ensures UnitsNear(s, p, g)
  {
  }

  lemma Telescope(x: real, y: real, a: real, b: real, z: real)
    requires y == z * 2147483648.0
    ensures x * z - (a * b) * 2147483648.0 == (x - a * 2147483648.0) * z + a * (y - b * 2147483648.0)
  {
    assert (x - a * 2147483648.0) * z == x * z - a * (z * 2147483648.0);
    assert a * (y - b * 2147483648.0) == a * y - (a * b) * 2147483648.0;
  }

  lemma RoundedProduct(s: int, x: int, y: int)
    requires -TWO31 <= 2 * (s * TWO31 - x * y) <= TWO31
    ensures Magnitude(s as real - x as real * (y as real / 2147483648.0)) <= 0.5
  {
    RealProduct(x, y);
    var p := x * y;
    assert 2.0 * (s as real * 2147483648.0 - p as real) <= 2147483648.0;
    assert 2.0 * (s as real * 2147483648.0 - p as real) >= -2147483648.0;
    assert x as real * (y as real / 2147483648.0) == p as real / 2147483648.0;
  }

  lemma SrdhmHalf(x: Int32, y: Int32)
    requires x != MIN32
    ensures -TWO31 <= 2 * (Srdhm(x, y) * TWO31 - x as int * y as int) <= TWO31
  {
    SrdhmExact(x, y);
    RoundUpNear(x as int * y as int, TWO31);
  }

  /** The error of a rounded product, from those of its factors. */
  lemma SrdhmWithin(x: Int32, y: Int32, a: real, b: real, p: real, ea: real, eb: real, my: real, ma: real, e: real)
    requires x != MIN32 && WordNear(x, a, ea) && WordNear(y, b, eb) && Magnitude(y as real / 2147483648.0) <= my && Magnitude(a) <= ma
    requires p == a * b && ea * my + ma * eb + 0.5 <= e
    ensures WordNear(Srdhm(x, y), p, e)
  {
    hide Srdhm, RoundUp, Magnitude, UnitsNear;
    var s: int := Srdhm(x, y);
    SrdhmHalf(x, y);
    RoundedProduct(s, x, y);
    ProductError(s as real, x as int as real, y as int as real, y as int as real / 2147483648.0, a, b, p, ea, eb, my, ma, e);
  }

  lemma RdpotWithin(x: Int32, k: nat, v: real, e: real)
    requires k == 1 || k == 2
    requires WordNear(x, v, e)
    ensures var d := if k == 1 then 2.0 else 4.0; WordNear(Rdpot(x, k), v / d, e / d + 0.5)
  {
    SmallPowers();
    RdpotExact(x, k);
    RoundAwayNear(x, Pow2(k));
    hide Rdpot, RoundAway, Pow2;
    var q := Rdpot(x, k);
    if k == 1 {
      assert -2 <= 2 * (q * 2 - x) <= 2;
    } else {
      assert -4 <= 2 * (q * 4 - x) <= 4;
    }
  }

  // ----- the polynomial -----

  predicate Middle(x: int) { -0x1000_0000 <= x <= 0xFFF_FFFF }

  /** A word in the middle and the fraction it stands for. */
  predicate Stands(x: int, v: real) { Middle(x) && v == x as real / 2147483648.0 }

  lemma SmallFraction(x: int, v: real)
    requires Stands(x, v)
    ensures Magnitude(v) <= 0.125 && WordNear(x, v, 0.0)
  {
  }

  /** What is known of an approximation of a small fraction. */
  lemma WithinRange(w: int, v: real, e: real, m: real, n: real)
    requires WordNear(w, v, e) && e <= 1.0 && Magnitude(v) <= m && m + 0.000001 <= n
    ensures Magnitude(w as real / 2147483648.0) <= n
  {
  }

  lemma Loosen(w: int, v: real, e: real, f: real)
    requires WordNear(w, v, e) && e <= f
    ensures WordNear(w, v, f)
  {
  }

  /** The square, the cube and a quarter of the fourth power. */
  lemma PowersWithin(x: Int32, v: real, v2: real, v3: real, v4: real)
    requires Stands(x, v) && v2 == v * v && v3 == v2 * v && v4 == v2 * v2
    ensures WordNear(Srdhm(x, x), v2, 0.5) && WordNear(Srdhm(Srdhm(x, x), x), v3, 0.5625)
    ensures WordNear(Rdpot(Srdhm(Srdhm(x, x), Srdhm(x, x)), 2), v4 / 4.0, 0.63)
  {
    hide Srdhm, Rdpot, WordNear, Magnitude;
    var x2 := Srdhm(x, x);
    SmallFraction(x, v);
    PowersSmall(v, v2, v3, v4);
    SrdhmWithin(x, x, v, v, v2, 0.0, 0.0, 0.125, 0.125, 0.5);
    SquareNotLeast(x);
    SrdhmWithin(x2, x, v2, v, v3, 0.5, 0.0, 0.125, 0.015625, 0.5625);
    WithinRange(x2, v2, 0.5, 0.015625, 0.016);
    SrdhmWithin(x2, x2, v2, v2, v4, 0.5, 0.5, 0.016, 0.015625, 0.52);
    RdpotWithin(Srdhm(x2, x2), 2, v4, 0.52);
  }

  lemma PowersSmall(v: real, v2: real, v3: real, v4: real)
    requires Magnitude(v) <= 0.125 && v2 == v * v && v3 == v2 * v && v4 == v2 * v2
    ensures Magnitude(v2) <= 0.015625 && Magnitude(v3) <= 0.002 && Magnitude(v4) <= 0.00025
  {
    hide Magnitude;
    ProductMagnitude(v, v, 0.125, 0.125);
    ProductMagnitude(v2, v, 0.015625, 0.125);
    ProductMagnitude(v2, v2, 0.015625, 0.015625);
  }

  /** The three sums behind the powers. */
  lemma SumsWithin(x: int, x2: int, x3: int, r4: Int32, v: real, v2: real, v3: real, v4: real, third: Int32, tmp: Int32, inner: Int32)
    requires Stands(x, v) && Magnitude(v2) <= 0.015625 && Magnitude(v3) <= 0.002 && Magnitude(v4) <= 0.00025
    requires WordNear(x2, v2, 0.5) && WordNear(x3, v3, 0.5625) && WordNear(r4, v4 / 4.0, 0.63)
    requires third == r4 + x3 && tmp == Srdhm(third, ONE_THIRD) + x2 && inner == x + Rdpot(tmp, 1)
    ensures WordNear(inner, v + v2 / 2.0 + v3 / 6.0 + v4 / 24.0, 1.2)
    ensures Magnitude(inner as real / 2147483648.0) <= 0.14
  {
    hide Srdhm, Rdpot;
    var t := v4 / 4.0 + v3;
    assert WordNear(third, t, 1.1925);
    assert WordNear(ONE_THIRD, 1.0 / 3.0, 0.34);
    SrdhmWithin(third, ONE_THIRD, t, 1.0 / 3.0, t / 3.0, 1.1925, 0.34, 0.3334, 0.0021, 0.9);
    assert WordNear(tmp, t / 3.0 + v2, 1.4);
    RdpotWithin(tmp, 1, t / 3.0 + v2, 1.4);
    assert WordNear(x, v, 0.0);
  }

  /** The series up to the fourth power. */
  function Quartic(v: real): real { 1.0 + v + v * v / 2.0 + v * v * v / 6.0 + (v * v) * (v * v) / 24.0 }

  /** The polynomial is within 1.6 units of the constant times the quartic. */
  lemma PolynomialWithin(x: Int32, v: real)
    requires Stands(x, v) && SumsFit(x)
    ensures WordNear(Polynomial(x), (EXP_CONST_TERM as real / 2147483648.0) * Quartic(v), 1.6)
  {
    hide Srdhm, Rdpot, WordNear, Magnitude, Stands;
    var v2 := v * v;
    var v3, v4 := v2 * v, v2 * v2;
    var x2 := Srdhm(x, x);
    var x3, r4 := Srdhm(x2, x), Rdpot(Srdhm(x2, x2), 2);
    var third: int := r4 + x3;
    var tmp: int := Srdhm(third, ONE_THIRD) + x2;
    var inner: int := x + Rdpot(tmp, 1);
    SmallFraction(x, v);
    PowersSmall(v, v2, v3, v4);
    PowersWithin(x, v, v2, v3, v4);
    SumsWithin(x, x2, x3, r4, v, v2, v3, v4, third, tmp, inner);
    var c, s := EXP_CONST_TERM as real / 2147483648.0, v + v2 / 2.0 + v3 / 6.0 + v4 / 24.0;
    ConstTerm();
    SrdhmWithin(EXP_CONST_TERM, inner, c, s, c * s, 0.0, 1.2, 0.14, 0.8826, 1.6);
    LastSum(Srdhm(EXP_CONST_TERM, inner), c, s, v);
  }

  lemma ConstTerm()
    ensures var c := EXP_CONST_TERM as real / 2147483648.0; Magnitude(c) <= 0.8826 && WordNear(EXP_CONST_TERM, c, 0.0)
  {
  }

  lemma LastSum(g: int, c: real, s: real, v: real)
    requires c == EXP_CONST_TERM as real / 2147483648.0 && s == v + v * v / 2.0 + v * v * v / 6.0 + (v * v) * (v * v) / 24.0
    requires WordNear(g, c * s, 1.6)
    ensures WordNear(EXP_CONST_TERM + g, c * Quartic(v), 1.6)
  {
  }

  lemma SquareNotLeast(x: Int32)
    ensures Srdhm(x, x) >= 0
  {
    SrdhmExact(x, x);
    RoundUpMono(0, x as int * x as int, TWO31);
  }

  // ----- the series -----

  lemma {:induction false} PowerSmall(x: real, n: nat)
    requires Magnitude(x) <= 0.125
    ensures 0.0 <= Power(Magnitude(x), n) <= Power(0.125, n) && Magnitude(Power(x, n)) <= Power(0.125, n)
  {
    if n > 0 {
      PowerSmall(x, n - 1);
      ProductMagnitude(x, Power(x, n - 1), 0.125, Power(0.125, n - 1));
      LargerProduct(x, Power(Magnitude(x), n - 1), Power(0.125, n - 1));
    }
  }

  lemma LargerProduct(x: real, p: real, q: real)
    requires Magnitude(x) <= 0.125 && 0.0 <= p <= q
    ensures 0.0 <= Magnitude(x) * p <= 0.125 * q
  {
    var a := Magnitude(x);
    assert a * p <= 0.125 * p;
  }

  lemma Factorials()
    ensures Factorial(2) == 2.0 && Factorial(3) == 6.0 && Factorial(4) == 24.0 && Factorial(5) == 120.0 && Factorial(6) == 720.0
    ensures Factorial(7) == 5040.0 && Factorial(8) == 40320.0
  {
    assert Factorial(0) == 1.0;
    assert Factorial(1) == 1.0;
  }

  lemma Eighths()
    ensures Power(0.125, 5) == 0.000030517578125 && Power(0.125, 6) == 0.000003814697265625
    ensures Power(0.125, 7) == 0.000000476837158203125 && Power(0.125, 8) == 0.000000059604644775390625
  {
    assert Power(0.125, 0) == 1.0;
    assert Power(0.125, 1) == 0.125;
    assert Power(0.125, 2) == 0.015625;
    assert Power(0.125, 3) == 0.001953125;
    assert Power(0.125, 4) == 0.000244140625;
  }

  lemma SeriesToFour(x: real)
    ensures Series(x, 4) == Quartic(x)
  {
    Factorials();
    assert Power(x, 0) == 1.0;
    assert Power(x, 1) == x;
    assert Power(x, 2) == x * x;
    assert Power(x, 3) == x * x * x;
    assert Power(x, 4) == (x * x) * (x * x);
    assert Series(x, 0) == 1.0;
    assert Series(x, 1) == 1.0 + x;
    assert Series(x, 2) == 1.0 + x + x * x / 2.0;
    assert Series(x, 3) == 1.0 + x + x * x / 2.0 + x * x * x / 6.0;
  }

  /** On an eighth either side of zero the quartic is within 2.6e-7 of the exponential. */
  lemma QuarticNear(E: real -> real, x: real)
    requires IsExponential(E) && Magnitude(x) <= 0.125
    ensures Magnitude(E(x) - Quartic(x)) <= 0.00000026
  {
    hide IsExponential, Power, Series, Quartic, Factorial;
    ToSix(E, x);
    SeriesToFour(x);
    Eighths();
    PowerSmall(x, 5);
    PowerSmall(x, 6);
    PowerSmall(x, 7);
    TwoTerms(x);
  }

  lemma ToSix(E: real -> real, x: real)
    requires IsExponential(E) && Magnitude(x) <= 0.125
    ensures Magnitude(E(x) - Series(x, 6)) <= 3.0 * Power(Magnitude(x), 7) / 5040.0
  {
    hide Power, Series, Factorial;
    SeriesRule(E, x, 6);
    Factorials();
  }

  lemma TwoTerms(x: real)
    ensures Series(x, 6) == Series(x, 4) + Power(x, 5) / 120.0 + Power(x, 6) / 720.0
  {
    Factorials();
    assert Series(x, 5) == Power(x, 5) / Factorial(5) + Series(x, 4);
    assert Series(x, 6) == Power(x, 6) / Factorial(6) + Series(x, 5);
  }

  // ----- the constants -----

  lemma EighthBetween(E: real -> real)
    requires IsExponential(E)
    ensures 0.88249690257870 <= E(-0.125) <= 0.88249690258758
  {
    SeriesRule(E, -0.125, 7);
    hide IsExponential;
    Factorials();
    Eighths();
    SeriesToFour(-0.125);
    TwoTerms(-0.125);
    assert Power(-0.125, 5) == -0.000030517578125;
    assert Power(-0.125, 6) == 0.000003814697265625;
    assert Power(-0.125, 7) == -0.000000476837158203125;
    assert Series(-0.125, 7) == Power(-0.125, 7) / 5040.0 + Series(-0.125, 6);
  }

  lemma Doubled(E: real -> real, x: real, y: real, lo: real, hi: real, lo': real, hi': real)
    requires IsExponential(E) && y == x + x && 0.0 <= lo <= E(x) <= hi && lo' <= lo * lo && hi * hi <= hi'
    ensures lo' <= E(y) <= hi'
  {
    SumRule(E, x, x);
    var v := E(x);
    assert lo * lo <= lo * v <= v * v && v * v <= v * hi <= hi * hi;
  }

  /** The exponential at the negated powers of two the barrel uses. */
  lemma BarrelValues(E: real -> real)
    requires IsExponential(E)
    ensures 0.77880078306099 <= E(-0.25) <= 0.77880078307668
    ensures 0.60653065969641 <= E(-0.5) <= 0.60653065972085
    ensures 0.36787944115176 <= E(-1.0) <= 0.36787944118141
    ensures 0.13533528322213 <= E(-2.0) <= 0.13533528324395
    ensures 0.01831563888481 <= E(-4.0) <= 0.01831563889073
    ensures 0.00033546262775 <= E(-8.0) <= 0.00033546262798
    ensures 0.00000011253517 <= E(-16.0) <= 0.00000011253518
  {
    hide IsExponential;
    EighthBetween(E);
    Doubled(E, -0.125, -0.25, 0.88249690257870, 0.88249690258758, 0.77880078306099, 0.77880078307668);
    Doubled(E, -0.25, -0.5, 0.77880078306099, 0.77880078307668, 0.60653065969641, 0.60653065972085);
    Doubled(E, -0.5, -1.0, 0.60653065969641, 0.60653065972085, 0.36787944115176, 0.36787944118141);
    Doubled(E, -1.0, -2.0, 0.36787944115176, 0.36787944118141, 0.13533528322213, 0.13533528324395);
    Doubled(E, -2.0, -4.0, 0.13533528322213, 0.13533528324395, 0.01831563888481, 0.01831563889073);
    Doubled(E, -4.0, -8.0, 0.01831563888481, 0.01831563889073, 0.00033546262775, 0.00033546262798);
    Doubled(E, -8.0, -16.0, 0.00033546262775, 0.00033546262798, 0.00000011253517, 0.00000011253518);
  }

  /** Twos to the power of a stage's exponent. */
  function StagePower(i: nat): real { Pow2(i) as real / 4.0 }

  /** Every constant is the nearest there is: exp(-1/8), and for each stage exp(-2^exponent), rounded to 31 bits. */
  lemma ConstantsNearest(E: real -> real)
    requires IsExponential(E)
    ensures WordNear(EXP_CONST_TERM, E(-0.125), 0.5)
    ensures forall i: nat :: i < |EXP_BARREL| ==> EXP_BARREL[i].0 == i - 2 && WordNear(EXP_BARREL[i].1, E(-StagePower(i)), 0.5)
  {
    hide IsExponential;
    EighthBetween(E);
    BarrelValues(E);
    forall i: nat | i < |EXP_BARREL|
      ensures EXP_BARREL[i].0 == i - 2 && WordNear(EXP_BARREL[i].1, E(-StagePower(i)), 0.5)
    {
      StageValue(i);
    }
  }

  lemma StageValue(i: nat)
    requires i < 7
    ensures StagePower(i) == [0.25, 0.5, 1.0, 2.0, 4.0, 8.0, 16.0][i]
  {
    assert Pow2(0) == 1;
    assert Pow2(1) == 2;
    assert Pow2(2) == 4;
    assert Pow2(3) == 8;
    assert Pow2(4) == 16;
    assert Pow2(5) == 32;
    assert Pow2(6) == 64;
  }

  // ----- the barrel -----

  lemma ExpAtMostOne(E: real -> real, x: real)
    requires IsExponential(E) && -0.25 <= x <= 0.0
    ensures 0.0 <= E(x) <= 1.0
  {
    SumRule(E, x / 2.0, x / 2.0);
    Linear(E, x);
    hide IsExponential;
    assert E(x) == E(x / 2.0) * E(x / 2.0);
    assert x * x <= -0.25 * x;
  }

  lemma Linear(E: real -> real, x: real)
    requires IsExponential(E) && -0.25 <= x <= 0.0
    ensures E(x) <= 1.0 + x + 1.5 * (x * x)
  {
    SeriesRule(E, x, 1);
    hide IsExponential;
    assert Power(Magnitude(x), 0) == 1.0 && Power(x, 0) == 1.0;
    assert Power(Magnitude(x), 1) == -x && Power(x, 1) == x;
    assert Power(Magnitude(x), 2) == x * x;
    assert Factorial(1) == 1.0;
    assert Factorial(2) == 2.0;
    assert Series(x, 0) == 1.0;
    assert Series(x, 1) == 1.0 + x;
  }

  // ----- the start -----

  lemma StartProduct(c: real, q: real, u: real, v: real, p: real, s: real)
    requires Magnitude(q - v) <= 0.00000026 && UnitsNear(c * 2147483648.0, u, 0.5) && Magnitude(c) <= 0.8826 && Magnitude(v) <= 1.14
    requires p == u * v && s == c * q
    ensures UnitsNear(s * 2147483648.0, p, 493.4)
  {
    var x, y := q - v, c * 2147483648.0 - u * 2147483648.0;
    var f, g := c * x, y * v;
    ProductMagnitude(c, x, 0.8826, 0.00000026);
    ProductMagnitude(y, v, 0.5, 1.14);
    Telescoped(c, q, u, v, x, y);
  }

  lemma Telescoped(c: real, q: real, u: real, v: real, x: real, y: real)
    requires x == q - v && y == c * 2147483648.0 - u * 2147483648.0
    ensures (c * q) * 2147483648.0 - (u * v) * 2147483648.0 == (c * x) * 2147483648.0 + y * v
  {
    assert c * x == c * q - c * v;
    assert y * v == (c * v) * 2147483648.0 - (u * v) * 2147483648.0;
  }

  lemma QuarticSmall(v: real)
    requires Magnitude(v) <= 0.125
    ensures Magnitude(Quartic(v)) <= 1.139
  {
    hide Magnitude;
    var v2 := v * v;
    PowersSmall(v, v2, v2 * v, v2 * v2);
    QuarticSum(v, v2, v2 * v, v2 * v2);
  }

  lemma QuarticSum(v: real, v2: real, v3: real, v4: real)
    requires v2 == v * v && v3 == v2 * v && v4 == v2 * v2
    requires Magnitude(v) <= 0.125 && Magnitude(v2) <= 0.015625 && Magnitude(v3) <= 0.002 && Magnitude(v4) <= 0.00025
    ensures Magnitude(Quartic(v)) <= 1.139
  {
    assert Quartic(v) == 1.0 + v + v2 / 2.0 + v3 / 6.0 + v4 / 24.0;
  }

  lemma StartSum(w: int, c: real, q: real, u: real, v: real, p: real)
    requires WordNear(w, c * q, 1.6) && WordNear(EXP_CONST_TERM, u, 0.5) && c == EXP_CONST_TERM as real / 2147483648.0
    requires Magnitude(q) <= 1.139 && Magnitude(v - q) <= 0.00000026 && p == u * v
    ensures WordNear(w, p, 495.0)
  {
    var s := c * q;
    StartProduct(c, q, u, v, p, s);
    assert Magnitude(w as real - s * 2147483648.0) <= 1.6;
  }

  /** The polynomial, scaled by the constant, against the exponential of its argument. */
  lemma StartWithin(E: real -> real, w: int, u: real)
    requires IsExponential(E) && -0x2000_0000 <= w <= -1 && u == w as real / 2147483648.0
    ensures WordNear(ExpOnInterval(w), E(u), 495.0) && ExpOnInterval(w) > 0 && 0.0 <= E(u) <= 1.0
  {
    hide Polynomial, SumsFit, ExpOnInterval, Quartic, IsExponential, WordNear;
    var x: Int32, v := w + 0x1000_0000, u + 0.125;
    IntervalExact(w);
    SmallFraction(x, v);
    PolynomialWithin(x, v);
    QuarticNear(E, v);
    QuarticSmall(v);
    ConstantsNearest(E);
    ConstTerm();
    SumRule(E, v, -0.125);
    ExpAtMostOne(E, u);
    assert u == v + -0.125;
    StartSum(ExpOnInterval(w), EXP_CONST_TERM as real / 2147483648.0, Quartic(v), E(-0.125), E(v), E(u));
  }

  // ----- the reduction, for any number of integer bits -----

  /** A word with that many integer bits as a number. */
  function Number(a: int, integerBits: nat): real { (a * Pow2(integerBits)) as real / 2147483648.0 }

  lemma Quarters(integerBits: nat)
    requires integerBits <= 5
    ensures var p, k := Pow2(29 - integerBits), Pow2(integerBits);
            p * k == 0x2000_0000 && 1 <= k <= 32 && p >= 0x100_0000 && p == Pow2(FractionBits(integerBits) - 2)
  {
    Pow2Add(integerBits, 29 - integerBits);
    Pow2Add(29 - integerBits, 2);
    Pow2Split(29);
    Pow2Mono(integerBits, 5);
    Pow2Mono(24, 29 - integerBits);
    QuarterIs();
    assert Pow2(2) == 4 && Pow2(5) == 32;
  }

  lemma {:induction false} Pow2Mono(a: nat, b: nat)
    requires a <= b
    ensures Pow2(a) <= Pow2(b)
    decreases b
  {
    if a < b { Pow2Mono(a, b - 1); }
  }

  /** The part within a quarter and the number of quarters above it. */
  lemma Remainder(a: int, p: int, k: int) returns (m: int, q: int)
    requires -TWO31 <= a < 0 && p * k == 0x2000_0000 && p > 0
    ensures m == a % p - p && -p <= m <= -1 && m - a == q * p && 0 <= q < 4 * k && q * p < TWO31
  {
    m, q := a % p - p, -(a / p) - 1;
    TwoParts(a, p, a / p, a % p);
    FewQuarters(q, p, k);
  }

  lemma TwoParts(a: int, p: int, f: int, r: int)
    requires -TWO31 <= a < 0 && p > 0 && a == f * p + r && 0 <= r < p
    ensures var m, q := r - p, -f - 1; m - a == q * p && 0 <= q && q * p < TWO31
  {
    var q := -f - 1;
    NegatedQuotient(f, p, q);
    NegativeQuotient(f, p);
  }

  lemma NegatedQuotient(f: int, p: int, q: int)
    requires q == -f - 1
    ensures q * p == -(f * p) - p
  {
  }

  lemma NegativeQuotient(f: int, p: int)
    requires p > 0 && f * p < 0
    ensures f < 0
  {
    if f >= 0 { MulMono(0, f, p); }
  }

  lemma FewQuarters(q: int, p: int, k: int)
    requires p > 0 && p * k == 0x2000_0000 && q * p < TWO31
    ensures q < 4 * k
  {
    if q >= 4 * k {
      MulMono(4 * k, q, p);
    }
  }

  /** For every number of integer bits: nothing wraps, and the scaled argument is in the interval of the polynomial. */
  lemma ReductionOf(a: Int32, integerBits: nat) returns (m: int, q: int)
    requires a < 0 && integerBits <= 5
    ensures var p, k := Pow2(29 - integerBits), Pow2(integerBits);
            && m == ModQuarter(a, integerBits) && m - a == q * p && S32(m - a) == q * p && 0 <= q < 4 * k
            && Srmbpot(m, integerBits) == m * k && -0x2000_0000 <= m * k <= -1
  {
    hide Srmbpot, Pow2, FractionBits, S32;
    Quarters(integerBits);
    var p: int, k: int := Pow2(29 - integerBits), Pow2(integerBits);
    m, q := Remainder(a, p, k);
    MulMono(-p, m, k);
    MulMono(m, -1, k);
    assert -p * k == -0x2000_0000;
    Kept(m, q * p);
    SrmbpotLeft(m, integerBits);
  }

  lemma Kept(m: int, r: int)
    requires -0x2000_0000 <= m < 0 && 0 <= r < TWO31
    ensures S32(m) == m && S32(r) == r
  {
  }

  /** The quarters whose stages have gone by. */
  function Passed(q: int, n: nat): int {
    if n == 0 then 0 else Passed(q, n - 1) + Pow2(n - 1) * (q / Pow2(n - 1) % 2)
  }

  lemma AllPassed(q: int)
    requires 0 <= q <= 127
    ensures Passed(q, 7) == q
  {
    Bits(q);
    assert Pow2(0) == 1 && Pow2(1) == 2 && Pow2(2) == 4;
    assert Pow2(3) == 8 && Pow2(4) == 16;
    assert Pow2(5) == 32 && Pow2(6) == 64;
    assert Passed(q, 1) == q % 2;
    assert Passed(q, 2) == Passed(q, 1) + 2 * (q / 2 % 2);
    assert Passed(q, 3) == Passed(q, 2) + 4 * (q / 4 % 2);
    assert Passed(q, 4) == Passed(q, 3) + 8 * (q / 8 % 2);
    assert Passed(q, 5) == Passed(q, 4) + 16 * (q / 16 % 2);
    assert Passed(q, 6) == Passed(q, 5) + 32 * (q / 32 % 2);
  }

  /** A stage applies just if its binary digit of the number of quarters is set: the stages a format lacks have none. */
  lemma StageDigit(integerBits: nat, q: int, i: nat)
    requires integerBits <= 5 && i < 7 && 0 <= q < 4 * Pow2(integerBits)
    ensures Taken(integerBits, q * Pow2(29 - integerBits), i) <==> q / Pow2(i) % 2 == 1
  {
    hide Pow2;
    assert EXP_BARREL[i].0 == i - 2;
    Pow2Add(29 - integerBits, i);
    ScaledQuotient(q, Pow2(i), Pow2(29 - integerBits));
    if integerBits <= i - 2 {
      Pow2Mono(integerBits + 2, i);
      FourTimes(integerBits);
      DivModUnique(q, Pow2(i), 0, q);
    }
  }

  lemma FourTimes(n: nat)
    ensures Pow2(n + 2) == 4 * Pow2(n)
  {
  }

  // ----- the barrel, for any number of integer bits -----

  /** The argument behind `n` stages. */
  function Reached(u: real, q: int, n: nat): real { u - Passed(q, n) as real / 4.0 }

  lemma ReachedNext(u: real, q: int, n: nat)
    ensures Reached(u, q, n + 1) == if q / Pow2(n) % 2 == 1 then Reached(u, q, n) + -StagePower(n) else Reached(u, q, n)
  {
    hide Pow2;
    var d := q / Pow2(n) % 2;
    assert Pow2(n) * d == if d == 1 then Pow2(n) else 0;
  }

  /** The barrel keeps the error: every factor it multiplies in takes more off it than it adds. */
  lemma {:induction false} BarrelWithin(E: real -> real, integerBits: nat, u: real, q: int, start: Int32, n: nat)
    requires IsExponential(E) && n <= 7 && start >= 0 && WordNear(start, E(u), 496.0) && 0.0 <= E(u) <= 1.0
    requires integerBits <= 5 && 0 <= q < 4 * Pow2(integerBits)
    ensures WordNear(Barrel(integerBits, q * Pow2(29 - integerBits), start, n), E(Reached(u, q, n)), 496.0) && 0.0 <= E(Reached(u, q, n)) <= 1.0
  {
    hide Taken, Srdhm, WordNear, StagePower, IsExponential, Pow2;
    var rest := q * Pow2(29 - integerBits);
    if n == 0 {
      assert Reached(u, q, 0) == u;
    } else {
      BarrelWithin(E, integerBits, u, q, start, n - 1);
      BarrelShrinks(integerBits, rest, start, n - 1);
      ReachedNext(u, q, n - 1);
      StageDigit(integerBits, q, n - 1);
      var r := Barrel(integerBits, rest, start, n - 1);
      if Taken(integerBits, rest, n - 1) {
        ConstantsNearest(E);
        SumRule(E, Reached(u, q, n - 1), -StagePower(n - 1));
        hide Reached;
        StageWithin(r, EXP_BARREL[n - 1].1, E(Reached(u, q, n - 1)), E(-StagePower(n - 1)), E(Reached(u, q, n)));
      }
    }
  }

  lemma StageWithin(r: Int32, f: Int32, u: real, v: real, p: real)
    requires r >= 0 && 242 <= f <= 1672461947 && WordNear(r, u, 496.0) && WordNear(f, v, 0.5) && 0.0 <= u <= 1.0 && p == u * v
    ensures WordNear(Srdhm(r, f), p, 496.0) && 0.0 <= p <= 1.0
  {
    hide Srdhm;
    assert Magnitude(f as int as real / 2147483648.0) <= 0.78 && 0.0 <= v <= 1.0;
    UnitProduct(u, v);
    hide WordNear;
    SrdhmWithin(r, f, u, v, p, 496.0, 0.5, 0.78, 1.0, 496.0);
  }

  lemma Larger(a: real, b: real, c: real)
    requires a <= b && c >= 0.0
    ensures a * c <= b * c
  {
  }

  lemma UnitProduct(u: real, v: real)
    requires 0.0 <= u <= 1.0 && 0.0 <= v <= 1.0
    ensures 0.0 <= u * v <= 1.0
  {
    Larger(0.0, u, v);
    ProductMagnitude(u, v, 1.0, 1.0);
  }

  lemma AtZero(E: real -> real)
    requires IsExponential(E)
    ensures E(0.0) == 1.0
  {
    SeriesRule(E, 0.0, 0);
    hide IsExponential;
    assert Power(0.0, 1) == 0.0;
    assert Power(0.0, 0) == 1.0;
  }

  /** Accuracy: for every argument at most zero, with any number of integer bits, the result is within 496 units of 2^-31 of
      the exponential, less than 2^-22. */
  lemma ExpAccurate(E: real -> real, a: Int32, integerBits: nat)
    requires IsExponential(E) && a <= 0 && integerBits <= 5
    ensures WordNear(Exp(a, integerBits), E(Number(a, integerBits)), 496.0) && Exp(a, integerBits) >= 0
  {
    hide IsExponential, ModQuarter, ExpOnInterval, Srmbpot, Barrel, S32, Passed, Pow2, WordNear;
    if a == 0 {
      AtZero(E);
      Top(E(0.0));
      assert Number(0, integerBits) == 0.0;
    } else {
      var m, q := ReductionOf(a, integerBits);
      Quarters(integerBits);
      var k, u := Pow2(integerBits), (m * Pow2(integerBits)) as real / 2147483648.0;
      StartWithin(E, m * k, u);
      Loosen(ExpOnInterval(m * k), E(u), 495.0, 496.0);
      BarrelWithin(E, integerBits, u, q, ExpOnInterval(m * k), 7);
      BarrelShrinks(integerBits, q * Pow2(29 - integerBits), ExpOnInterval(m * k), 7);
      AllPassed(q);
      ArgumentReached(a, m, q, Pow2(29 - integerBits), k);
    }
  }

  lemma Top(v: real)
    requires v == 1.0
    ensures WordNear(MAX32, v, 496.0)
  {
  }

  lemma ArgumentReached(a: int, m: int, q: int, p: int, k: int)
    requires m - a == q * p && p * k == 0x2000_0000
    ensures (m * k) as real / 2147483648.0 - q as real / 4.0 == (a * k) as real / 2147483648.0
  {
    assert a * k == m * k - q * (p * k);
  }

  /** A word with five integer bits as a number. */
  function Argument(a: int): real { a as real / 67108864.0 }

  lemma ArgumentIs(a: int)
    ensures Number(a, 5) == Argument(a)
  {
    assert Pow2(5) == 32;
  }

  lemma FiveBits(E: real -> real, a: Int32)
    requires IsExponential(E) && a <= 0
    ensures WordNear(Exp(a, 5), E(Argument(a)), 496.0) && Exp(a, 5) >= 0
  {
    hide IsExponential, Exp, WordNear;
    ExpAccurate(E, a, 5);
    ArgumentIs(a);
  }

  /** Sums to products, as the exponential itself: the rounded product of two results is the result of the sum of their
      arguments, within 1494 units. */
  lemma SumToProduct(E: real -> real, a: Int32, b: Int32)
    requires IsExponential(E) && a <= 0 && b <= 0 && MIN32 <= a + b
    ensures -1494 <= Exp(a + b, 5) - Srdhm(Exp(a, 5), Exp(b, 5)) <= 1494
  {
    hide IsExponential, Exp, Argument, Srdhm, WordNear;
    var x, y, z := Exp(a, 5), Exp(b, 5), Exp(a + b, 5);
    var s, t := Argument(a), Argument(b);
    Arguments(a, b);
    FiveBits(E, a);
    FiveBits(E, b);
    FiveBits(E, a + b);
    ThreeWords(E, x, y, z, s, t);
  }

  lemma Arguments(a: int, b: int)
    ensures Argument(a + b) == Argument(a) + Argument(b)
  {
  }

  lemma ThreeWords(E: real -> real, x: Int32, y: Int32, z: Int32, s: real, t: real)
    requires IsExponential(E) && x >= 0 && y >= 0 && WordNear(x, E(s), 496.0) && WordNear(y, E(t), 496.0) && WordNear(z, E(s + t), 496.0)
    ensures -1494 <= z - Srdhm(x, y) <= 1494
  {
    hide Srdhm, WordNear, IsExponential;
    SumRule(E, s, t);
    WordBelow(x, E(s));
    UnitWord(y);
    SrdhmWithin(x, y, E(s), E(t), E(s + t), 496.0, 496.0, 1.0, 1.01, 998.0);
    Apart(z, Srdhm(x, y), E(s + t));
  }

  lemma UnitWord(y: Int32)
    requires y >= 0
    ensures Magnitude(y as int as real / 2147483648.0) <= 1.0
  {
  }

  lemma WordBelow(w: Int32, v: real)
    requires WordNear(w, v, 496.0) && w >= 0
    ensures Magnitude(v) <= 1.01
  {
  }

  lemma Apart(x: int, y: int, v: real)
    requires WordNear(x, v, 496.0) && WordNear(y, v, 998.0)
    ensures -1494 <= x - y <= 1494
  {
  }
}
