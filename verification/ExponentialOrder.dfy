/** The exponential keeps order: over all words at most zero a larger argument never gets a smaller result. */
module ExponentialOrder {
  import opened Words
  import opened FixedPoint
  import opened Exponential

  // ----- rounding keeps order and distance -----

  lemma RoundUpShift(n: int, d: int, b: int)
    requires d > 0
    ensures RoundUp(n + b * d, d) == RoundUp(n, d) + b
  {
    var q, r := (2 * n + d) / (2 * d), (2 * n + d) % (2 * d);
    assert 2 * n + d == q * (2 * d) + r;
    assert 2 * (n + b * d) + d == (q + b) * (2 * d) + r by { assert (q + b) * (2 * d) == q * (2 * d) + 2 * (b * d); }
    DivModUnique(2 * (n + b * d) + d, 2 * d, q + b, r);
  }

  /** Numbers at most `b` divisors apart are at most `b` apart when rounded. */
  lemma RoundUpApart(m: int, n: int, d: int, b: int)
    requires d > 0 && b >= 0 && m - b * d <= n <= m + b * d
    ensures RoundUp(m, d) - b <= RoundUp(n, d) <= RoundUp(m, d) + b
  {
    RoundUpShift(m, d, b);
    RoundUpShift(m, d, -b);
    RoundUpMono(n, m + b * d, d);
    RoundUpMono(m + (-b) * d, n, d);
  }

  lemma SrdhmApart(x: Int32, y: Int32, x': Int32, y': Int32, b: int)
    requires x != MIN32 && x' != MIN32 && b >= 0
    requires x as int * y as int - b * TWO31 <= x' as int * y' as int <= x as int * y as int + b * TWO31
    ensures Srdhm(x, y) - b <= Srdhm(x', y') <= Srdhm(x, y) + b
  {
    SrdhmExact(x, y);
    SrdhmExact(x', y');
    RoundUpApart(x as int * y as int, x' as int * y' as int, TWO31, b);
  }

  lemma SrdhmMono(x: Int32, y: Int32, f: Int32)
    requires x <= y && f > 0
    ensures Srdhm(x, f) <= Srdhm(y, f)
  {
    SrdhmExact(x, f);
    SrdhmExact(y, f);
    MulMono(x, y, f);
    RoundUpMono(x as int * f as int, y as int * f as int, TWO31);
  }

  lemma SrdhmIs(x: Int32, y: Int32, v: int)
    requires x != MIN32 && -TWO31 < 2 * (v * TWO31 - x as int * y as int) <= TWO31
    ensures Srdhm(x, y) == v
  {
    SrdhmExact(x, y);
    RoundUpUnique(x as int * y as int, TWO31, v);
  }

  /** Halving, of numbers at most ten apart. */
  lemma HalvesApart(x: Int32, y: Int32)
    requires x - 10 <= y <= x + 10
    ensures Rdpot(x, 1) - 6 <= Rdpot(y, 1) <= Rdpot(x, 1) + 6
  {
    SmallPowers();
    RdpotExact(x, 1);
    RdpotExact(y, 1);
    hide RoundAway, Rdpot;
    RoundAwayNear(x, 2);
    RoundAwayNear(y, 2);
  }

  lemma QuartersApart(x: Int32, y: Int32)
    requires 0 <= x && 0 <= y && x - 1 <= y <= x + 1
    ensures Rdpot(x, 2) - 1 <= Rdpot(y, 2) <= Rdpot(x, 2) + 1
  {
    SmallPowers();
    RdpotExact(x, 2);
    RdpotExact(y, 2);
    RoundUpApart(x, y, 4, 1);
  }

  // ----- the polynomial rises -----

  /** The arguments of the polynomial: a quarter unit around its middle. */
  predicate Middle(x: int) { -0x1000_0000 <= x <= 0xFFF_FFE0 }

  function Square(x: Int32): Int32 { Srdhm(x, x) }

  function Cube(x: Int32): Int32 { Srdhm(Srdhm(x, x), x) }

  function Fourth(x: Int32): Int32 { Srdhm(Srdhm(x, x), Srdhm(x, x)) }

  lemma SquareRange(x: Int32)
    requires Middle(x)
    ensures 0 <= Square(x) <= 0x200_0000
  {
    if x >= 0 {
      MulIn(x, x, 0, 0xFFF_FFE0, 0, 0xFFF_FFE0, 0, 0x200_0000);
    } else {
      SquareSign(x);
    }
  }

  lemma FourthRange(x: Int32)
    requires Middle(x)
    ensures Fourth(x) >= 0
  {
    hide Srdhm;
    SquareRange(x);
    MulIn(Square(x), Square(x), 0, 0x200_0000, 0, 0x200_0000, 0, 0x8_0000);
  }

  /** Over one step of the argument, 32 units, the powers move little. */
  lemma SquareStep(x: Int32)
    requires Middle(x) && Middle(x + 32)
    ensures Square(x) - 8 <= Square(x + 32) <= Square(x) + 8
  {
    var v: int := x;
    assert (v + 32) * (v + 32) == v * v + 64 * v + 1024;
    SrdhmApart(x, x, x + 32, x + 32, 8);
  }

  lemma ProductStep(p: int, q: int, x: int)
    requires 0 <= p <= 0x200_0000 && p - 8 <= q <= p + 8 && -0x1000_0000 <= x <= 0x1000_0000
    ensures p * x - 2 * TWO31 <= q * (x + 32) <= p * x + 2 * TWO31
  {
    var e := q - p;
    assert q * (x + 32) == p * x + e * x + 32 * q;
    ProductBetween(if x >= 0 then x else -x, e, 0, 0x1000_0000, -8, 8);
    assert e * x == x * e && (-x) * e == -(x * e);
  }

  lemma CubeStep(x: Int32)
    requires Middle(x) && Middle(x + 32)
    ensures Cube(x) - 2 <= Cube(x + 32) <= Cube(x) + 2
  {
    hide Srdhm;
    SquareRange(x);
    SquareRange(x + 32);
    SquareStep(x);
    ProductStep(Square(x), Square(x + 32), x);
    SrdhmApart(Square(x), x, Square(x + 32), x + 32, 2);
  }

  lemma SquaresStep(p: int, q: int)
    requires 0 <= p <= 0x200_0000 && 0 <= q <= 0x200_0000 && p - 8 <= q <= p + 8
    ensures p * p - TWO31 <= q * q <= p * p + TWO31
  {
    var e := q - p;
    assert q * q == p * p + e * (p + q);
    ProductBetween(p + q, e, 0, 0x400_0000, -8, 8);
    assert e * (p + q) == (p + q) * e;
  }

  lemma FourthStep(x: Int32)
    requires Middle(x) && Middle(x + 32)
    ensures Fourth(x) - 1 <= Fourth(x + 32) <= Fourth(x) + 1
  {
    hide Srdhm;
    SquareRange(x);
    SquareRange(x + 32);
    SquareStep(x);
    SquaresStep(Square(x), Square(x + 32));
    SrdhmApart(Square(x), Square(x), Square(x + 32), Square(x + 32), 1);
  }

  lemma ThirdStep(x: Int32, y: Int32)
    requires x - 3 <= y <= x + 3 && x != MIN32 && y != MIN32
    ensures Srdhm(x, ONE_THIRD) - 2 <= Srdhm(y, ONE_THIRD) <= Srdhm(x, ONE_THIRD) + 2
  {
    SrdhmApart(x, ONE_THIRD, y, ONE_THIRD, 2);
  }

  /** The polynomial in terms of the powers. */
  function Thirds(x: Int32): int { Rdpot(Fourth(x), 2) + Cube(x) }

  function Halves(x: Int32): int { Srdhm(Thirds(x), ONE_THIRD) + Square(x) }

  function Inner(x: Int32): int { x + Rdpot(Halves(x), 1) }

  lemma PolynomialIs(x: Int32)
    requires SumsFit(x)
    ensures Polynomial(x) == EXP_CONST_TERM + Srdhm(EXP_CONST_TERM, Inner(x))
    ensures IsWord(Thirds(x)) && IsWord(Halves(x)) && IsWord(Inner(x))
  {
    hide Srdhm, Rdpot;
  }

  lemma MiddleFits(x: Int32)
    requires Middle(x)
    ensures SumsFit(x)
  {
    if x >= 0 { PolynomialHigh(x); } else { PolynomialLow(x); }
  }

  lemma ThirdsRange(x: Int32)
    requires Middle(x)
    ensures Thirds(x) > MIN32
  {
    hide Srdhm;
    SquareRange(x);
    FourthRange(x);
    SmallPowers();
    RdpotBetween(Fourth(x), 2, 0, 0x2000_0000);
    if x >= 0 {
      MulIn(Square(x), x, 0, 0x200_0000, 0, 0xFFF_FFE0, 0, 0x40_0000);
    } else {
      MulIn(Square(x), x, 0, 0x200_0000, -0x1000_0000, 0, -0x40_0000, 0);
    }
  }

  lemma InnerStep(x: Int32)
    requires Middle(x) && Middle(x + 32)
    ensures Inner(x) < Inner(x + 32)
  {
    hide Srdhm, Rdpot, Square, Cube, Fourth, SumsFit, Polynomial;
    MiddleFits(x);
    MiddleFits(x + 32);
    PolynomialIs(x);
    PolynomialIs(x + 32);
    SquareStep(x);
    CubeStep(x);
    FourthStep(x);
    FourthRange(x);
    FourthRange(x + 32);
    QuartersApart(Fourth(x), Fourth(x + 32));
    ThirdsRange(x);
    ThirdsRange(x + 32);
    ThirdStep(Thirds(x), Thirds(x + 32));
    HalvesApart(Halves(x), Halves(x + 32));
  }

  lemma PolynomialStep(x: Int32)
    requires Middle(x) && Middle(x + 32)
    ensures SumsFit(x) && SumsFit(x + 32) && Polynomial(x) <= Polynomial(x + 32)
  {
    hide Srdhm, Inner, SumsFit, Polynomial;
    MiddleFits(x);
    MiddleFits(x + 32);
    PolynomialIs(x);
    PolynomialIs(x + 32);
    InnerStep(x);
    SrdhmCommutes(EXP_CONST_TERM, Inner(x));
    SrdhmCommutes(EXP_CONST_TERM, Inner(x + 32));
    SrdhmMono(Inner(x), Inner(x + 32), EXP_CONST_TERM);
  }

  // ----- the barrel keeps order -----

  function Factor(i: nat): (f: Int32)
    requires i < |EXP_BARREL|
    ensures f > 0
  {
    EXP_BARREL[i].1
  }

  /** The stages of the barrel from the i-th on, `q` being the quarters that are left to multiply in. */
  function Stages(i: nat, q: nat, start: Int32): Int32
    requires i <= |EXP_BARREL|
    decreases |EXP_BARREL| - i
  {
    if i == |EXP_BARREL| then start else Stages(i + 1, q / 2, Staged(i, q, start))
  }

  function Staged(i: nat, q: nat, start: Int32): Int32
    requires i < |EXP_BARREL|
  {
    if q % 2 == 1 then Srdhm(start, Factor(i)) else start
  }

  lemma {:induction false} StagesAreBarrel(q: nat, start: Int32, i: nat)
    requires q <= 127 && i <= |EXP_BARREL|
    ensures Stages(i, q / Pow2(i), Barrel(5, q * QUARTER, start, i)) == Barrel(5, q * QUARTER, start, |EXP_BARREL|)
    decreases |EXP_BARREL| - i
  {
    hide Srdhm, Taken;
    if i < |EXP_BARREL| {
      StageBit(q, i);
      HalfOf(q, Pow2(i));
      assert Pow2(i + 1) == 2 * Pow2(i);
      hide Pow2;
      StagesAreBarrel(q, start, i + 1);
    }
  }

  lemma {:induction false} StagesMono(i: nat, q: nat, s: Int32, s': Int32)
    requires i <= |EXP_BARREL| && s <= s'
    ensures Stages(i, q, s) <= Stages(i, q, s')
    decreases |EXP_BARREL| - i
  {
    hide Srdhm, Factor;
    if i < |EXP_BARREL| {
      SrdhmMono(s, s', Factor(i));
      StagesMono(i + 1, q / 2, Staged(i, q, s), Staged(i, q, s'));
    }
  }

  // ----- from one quarter to the next -----

  // The polynomial at the two ends of its interval.
  const HIGH_END: Int32 := 2147483124
  const LOW_END: Int32 := 1672462419

  lemma HighEnd()
    ensures ExpOnInterval(-32) == HIGH_END
  {
    hide Srdhm, Rdpot, S32;
    SmallPowers();
    IntervalExact(-32);
    PolynomialIs(0xFFF_FFE0);
    SrdhmIs(0xFFF_FFE0, 0xFFF_FFE0, 33554424);
    SrdhmIs(33554424, 0xFFF_FFE0, 4194303);
    SrdhmIs(33554424, 33554424, 524288);
    RdpotBetween(524288, 2, 131072, 131072);
    SrdhmIs(4325375, ONE_THIRD, 1441792);
    RdpotBetween(34996216, 1, 17498108, 17498108);
    SrdhmIs(EXP_CONST_TERM, 285933532, HIGH_END - EXP_CONST_TERM);
  }

  lemma LowEnd()
    ensures ExpOnInterval(-0x2000_0000) == LOW_END
  {
    hide Srdhm, Rdpot, S32;
    SmallPowers();
    IntervalExact(-0x2000_0000);
    PolynomialIs(-0x1000_0000);
    SrdhmIs(-0x1000_0000, -0x1000_0000, 33554432);
    SrdhmIs(33554432, -0x1000_0000, -4194304);
    SrdhmIs(33554432, 33554432, 524288);
    RdpotBetween(524288, 2, 131072, 131072);
    SrdhmIs(-4063232, ONE_THIRD, -1354411);
    RdpotExact(32200021, 1);
    HalfUp(32200021);
    SrdhmIs(EXP_CONST_TERM, -252335445, LOW_END - EXP_CONST_TERM);
  }

  /** LOW_END behind the first `i` stages. */
  const LOW_CHAIN: seq<Int32> := [LOW_END, 1302515042, 790015308, 290630390, 39332546, 720401, 242, 0]

  /** HIGH_END behind one stage. */
  const HIGH_STAGE: seq<Int32> := [1672461539, 1302514356, 790014891, 290630237, 39332525, 720401, 242]

  lemma ChainStep(i: nat)
    requires i < |EXP_BARREL|
    ensures Srdhm(LOW_CHAIN[i], Factor(i)) == LOW_CHAIN[i + 1] && Srdhm(HIGH_END, Factor(i)) <= LOW_CHAIN[i]
  {
    hide Srdhm;
    SrdhmIs(LOW_CHAIN[i], EXP_BARREL[i].1, LOW_CHAIN[i + 1]);
    SrdhmIs(HIGH_END, EXP_BARREL[i].1, HIGH_STAGE[i]);
  }

  /** One quarter more, from the upper end of an interval, is not above the quarters below from the lower end. */
  lemma {:induction false} NextQuarter(i: nat, q: nat)
    requires i <= |EXP_BARREL| && 1 <= q < Pow2(|EXP_BARREL| - i)
    ensures Stages(i, q, HIGH_END) <= Stages(i, q - 1, LOW_CHAIN[i])
    decreases |EXP_BARREL| - i
  {
    hide Srdhm, Factor;
    ChainStep(i);
    if q % 2 == 1 {
      assert (q - 1) / 2 == q / 2;
      StagesMono(i + 1, q / 2, Staged(i, q, HIGH_END), Staged(i, q - 1, LOW_CHAIN[i]));
    } else {
      assert (q - 1) / 2 == q / 2 - 1 && (q - 1) % 2 == 1;
      NextQuarter(i + 1, q / 2);
    }
  }

  // ----- the whole range -----

  /** The exponential below zero, in terms of the quarters and the part within one. */
  lemma ExpParts(a: Int32, q: nat)
    requires a < 0 && q <= 127 && ModQuarter(a, 5) - a == q * QUARTER
    ensures Exp(a, 5) == Stages(0, q, ExpOnInterval(32 * ModQuarter(a, 5)))
  {
    hide ModQuarter, Srmbpot, ExpOnInterval, Barrel, Stages, S32;
    Reduction(a);
    StagesAreBarrel(q, ExpOnInterval(32 * ModQuarter(a, 5)), 0);
    StartOfBarrel(q, ExpOnInterval(32 * ModQuarter(a, 5)));
  }

  lemma StartOfBarrel(q: nat, start: Int32)
    ensures q / Pow2(0) == q && Barrel(5, q * QUARTER, start, 0) == start
  {
  }

  /** Two neighbours in the same quarter. */
  lemma StepWithin(a: Int32, q: nat)
    requires a < -1 && q <= 127 && ModQuarter(a, 5) - a == q * QUARTER && ModQuarter(a, 5) < -1
    requires ModQuarter(a + 1, 5) == ModQuarter(a, 5) + 1 && -QUARTER <= ModQuarter(a, 5)
    ensures Exp(a, 5) <= Exp(a + 1, 5)
  {
    hide ModQuarter, ExpOnInterval, Stages, Polynomial, SumsFit, Exp;
    var m := ModQuarter(a, 5);
    ExpParts(a, q);
    ExpParts(a + 1, q);
    IntervalExact(32 * m);
    IntervalExact(32 * (m + 1));
    PolynomialStep(32 * m + 0x1000_0000);
    StagesMono(0, q, ExpOnInterval(32 * m), ExpOnInterval(32 * (m + 1)));
  }

  /** Two neighbours in different quarters. */
  lemma StepAcross(a: Int32, q: nat)
    requires a < -1 && 1 <= q <= 127 && ModQuarter(a, 5) == -1 && -1 - a == q * QUARTER && ModQuarter(a + 1, 5) == -QUARTER
    ensures Exp(a, 5) <= Exp(a + 1, 5)
  {
    hide ModQuarter, ExpOnInterval, Stages, Exp;
    ExpParts(a, q);
    ExpParts(a + 1, q - 1);
    HighEnd();
    LowEnd();
    assert Pow2(7) == 128;
    hide Pow2;
    NextQuarter(0, q);
  }

  lemma NextRemainder(a: int)
    ensures (a + 1) % QUARTER == if a % QUARTER == QUARTER - 1 then 0 else a % QUARTER + 1
  {
    var q, r := a / QUARTER, a % QUARTER;
    if r == QUARTER - 1 { DivModUnique(a + 1, QUARTER, q + 1, 0); } else { DivModUnique(a + 1, QUARTER, q, r + 1); }
  }

  lemma ExpStep(a: Int32)
    requires a < 0
    ensures Exp(a, 5) <= Exp(a + 1, 5)
  {
    if a == -1 {
      hide ModQuarter, Barrel;
      ExpRange(a);
    } else {
      hide ModQuarter, Exp, Srmbpot, S32;
      Reduction(a);
      Reduction(a + 1);
      NextRemainder(a);
      var q: int :| 0 <= q <= 127 && ModQuarter(a, 5) - a == q * QUARTER;
      if a % QUARTER == QUARTER - 1 {
        StepAcross(a, q);
      } else {
        StepWithin(a, q);
      }
    }
  }

  /** The exponential keeps order over all words at most zero. */
  lemma {:induction false} ExpMono(a: Int32, b: Int32)
    requires a <= b <= 0
    ensures Exp(a, 5) <= Exp(b, 5)
    decreases b - a
  {
    hide Exp;
    if a < b {
      ExpStep(a);
      ExpMono(a + 1, b);
    }
  }
}
