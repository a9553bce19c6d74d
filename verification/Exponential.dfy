/** The exponential on non-positive fixed-point numbers: a polynomial on a quarter unit and a barrel of factors. */
module Exponential {
  import opened Words
  import opened FixedPoint

  const EXP_CONST_TERM: int := 1895147668
  const ONE_THIRD: int := 715827883

  /** Exponent and factor of each stage of the barrel: exp(-2^exponent) as a 31-bit fraction. */
  const EXP_BARREL: seq<(int, int)> := [
    (-2, 1672461947), (-1, 1302514674), (0, 790015084), (1, 290630308), (2, 39332535), (3, 720401), (4, 242)]

  function ExpOnInterval(a: int): Int32 {
    var x := S32(a + 0x1000_0000);
    var x2 := Srdhm(x, x);
    var x3 := Srdhm(x2, x);
    var x4 := Srdhm(x2, x2);
    var tmp := S32(Srdhm(S32(Rdpot(x4, 2) + x3), ONE_THIRD) + x2);
    var inner := S32(x + Rdpot(tmp, 1));
    S32(EXP_CONST_TERM + Srdhm(EXP_CONST_TERM, inner))
  }

  function FractionBits(integerBits: nat): int { 31 - integerBits }

  /** The part of `a` within one quarter, less the quarter. */
  function ModQuarter(a: int, integerBits: nat): Int32
    requires integerBits <= 5
  {
    var quarter := Pow2(FractionBits(integerBits) - 2);
    S32(a % quarter - quarter)
  }

  /** Whether a stage of the barrel applies: its bit of the remainder is set. */
  predicate Taken(integerBits: nat, remainder: int, i: nat)
    requires integerBits <= 5 && i < |EXP_BARREL|
  {
    var exponent := EXP_BARREL[i].0;
    integerBits > exponent && FractionBits(integerBits) + exponent >= 0
    && remainder / Pow2(FractionBits(integerBits) + exponent) % 2 == 1
  }

  function Barrel(integerBits: nat, remainder: int, start: Int32, n: nat): Int32
    requires integerBits <= 5 && n <= |EXP_BARREL|
  {
    if n == 0 then start
    else
      var r := Barrel(integerBits, remainder, start, n - 1);
      if Taken(integerBits, remainder, n - 1) then Srdhm(r, EXP_BARREL[n - 1].1) else r
  }

  function Exp(a: int, integerBits: nat): Int32
    requires integerBits <= 5
  {
    var m := ModQuarter(a, integerBits);
    if a == 0 then MAX32
    else Barrel(integerBits, S32(m - a), ExpOnInterval(Srmbpot(m, integerBits)), |EXP_BARREL|)
  }

  method ExpOnNegativeValues(a: int, integerBits: nat) returns (result: Int32)
    requires integerBits <= 5
    ensures result == Exp(a, integerBits)
  {
    hide ExpOnInterval, Srdhm, Srmbpot, S32, Taken;
    var oneQuarter := Pow2(FractionBits(integerBits) - 2);
    var aModQuarter := S32(a % oneQuarter - oneQuarter);
    var start := ExpOnInterval(Srmbpot(aModQuarter, integerBits));
    result := start;
    var remainder := S32(aModQuarter - a);
    for i := 0 to |EXP_BARREL|
      invariant result == Barrel(integerBits, remainder, start, i)
    {
      if Taken(integerBits, remainder, i) {
        result := Srdhm(result, EXP_BARREL[i].1);
      }
    }
    if a == 0 {
      result := MAX32;
    }
  }

  // ----- ranges -----

  /** A rounded product between two bounds. */
  lemma SrdhmBetween(x: Int32, y: Int32, lo: int, hi: int)
    requires x != MIN32 && lo * TWO31 - 0x4000_0000 <= x as int * y as int < hi * TWO31 + 0x4000_0000
    ensures lo <= Srdhm(x, y) <= hi
  {
    SrdhmExact(x, y);
  }

  lemma ProductBetween(x: int, y: int, xl: int, xh: int, yl: int, yh: int)
    requires 0 <= xl <= x <= xh && yl <= y <= yh
    ensures (if yl >= 0 then xl * yl else xh * yl) <= x * y <= (if yh >= 0 then xh * yh else xl * yh)
  {
    MulMono(yl, y, x);
    MulMono(y, yh, x);
    if yl >= 0 { MulMono(xl, x, yl); } else { MulMono(x, xh, -yl); }
    if yh >= 0 { MulMono(x, xh, yh); } else { MulMono(xl, x, -yh); }
  }

  /** A rounded product of two factors in given ranges. */
  lemma MulIn(x: Int32, y: Int32, xl: int, xh: int, yl: int, yh: int, lo: int, hi: int)
    requires 0 <= xl <= x <= xh && yl <= y <= yh
    requires lo * TWO31 - 0x4000_0000 <= (if yl >= 0 then xl * yl else xh * yl)
    requires (if yh >= 0 then xh * yh else xl * yh) < hi * TWO31 + 0x4000_0000
    ensures lo <= Srdhm(x, y) <= hi
  {
    ProductBetween(x, y, xl, xh, yl, yh);
    SrdhmBetween(x, y, lo, hi);
  }

  /** Every sum of the polynomial, before it is cut to a word. */
  predicate SumsFit(x: Int32) {
    var x2 := Srdhm(x, x);
    var x3, x4 := Srdhm(x2, x), Srdhm(x2, x2);
    var third: int := Rdpot(x4, 2) + x3;
    IsWord(third)
    && var tmp: int := Srdhm(third, ONE_THIRD) + x2;
       IsWord(tmp)
       && var inner: int := x + Rdpot(tmp, 1);
          IsWord(inner) && IsWord(EXP_CONST_TERM + Srdhm(EXP_CONST_TERM, inner))
  }

  predicate IsWord(x: int) { MIN32 <= x <= MAX32 }

  /** What the polynomial comes to when no sum wraps. */
  function Polynomial(x: Int32): int
    requires SumsFit(x)
  {
    var x2 := Srdhm(x, x);
    var x3, x4 := Srdhm(x2, x), Srdhm(x2, x2);
    var tmp := Srdhm(Rdpot(x4, 2) + x3, ONE_THIRD) + x2;
    EXP_CONST_TERM + Srdhm(EXP_CONST_TERM, x + Rdpot(tmp, 1))
  }

  lemma RdpotBetween(x: Int32, e: nat, lo: int, hi: int)
    requires lo * Pow2(e) <= x <= hi * Pow2(e)
    ensures lo <= Rdpot(x, e) <= hi
  {
    RdpotExact(x, e);
    var d, q := Pow2(e), RoundAway(x, Pow2(e));
    RoundAwayNear(x, d);
    assert (hi + 1) * d == hi * d + d && (lo - 1) * d == lo * d - d;
    if q > hi { MulMono(hi + 1, q, d); }
    if q < lo { MulMono(q, lo - 1, d); }
  }

  /** From the powers of `x` on, given their ranges. */
  lemma PolynomialTail(x: Int32, x2: Int32, x3: Int32, x4: Int32, third: int, tmp: int, inner: int)
    requires x2 == Srdhm(x, x) && x3 == Srdhm(x2, x) && x4 == Srdhm(x2, x2)
    requires third == Rdpot(x4, 2) + x3 && IsWord(third) && tmp == Srdhm(third, ONE_THIRD) + x2 && IsWord(tmp)
    requires inner == x + Rdpot(tmp, 1) && IsWord(inner) && IsWord(EXP_CONST_TERM + Srdhm(EXP_CONST_TERM, inner))
    ensures SumsFit(x)
  {
    hide Srdhm, Rdpot;
  }

  lemma SmallPowers()
    ensures Pow2(1) == 2 && Pow2(2) == 4
  {
  }

  /** The upper half of the interval. */
  lemma PolynomialHigh(x: Int32)
    requires 0 <= x <= 0xFFF_FFFF
    ensures SumsFit(x) && EXP_CONST_TERM <= Polynomial(x) <= MAX32
  {
    hide Srdhm, Rdpot, Pow2;
    SmallPowers();
    MulIn(x, x, 0, 0xFFF_FFFF, 0, 0xFFF_FFFF, 0, 0x200_0000);
    var x2 := Srdhm(x, x);
    MulIn(x2, x, 0, 0x200_0000, 0, 0xFFF_FFFF, 0, 0x40_0000);
    var x3 := Srdhm(x2, x);
    MulIn(x2, x2, 0, 0x200_0000, 0, 0x200_0000, 0, 0x8_0000);
    var x4 := Srdhm(x2, x2);
    RdpotBetween(x4, 2, 0, 0x2_0000);
    var third: int := Rdpot(x4, 2) + x3;
    MulIn(third, ONE_THIRD, 0, 4325376, ONE_THIRD, ONE_THIRD, 0, 1441792);
    var tmp: int := Srdhm(third, ONE_THIRD) + x2;
    RdpotBetween(tmp, 1, 0, 17498112);
    var inner: int := x + Rdpot(tmp, 1);
    MulIn(EXP_CONST_TERM, inner, EXP_CONST_TERM, EXP_CONST_TERM, 0, 285933567, 0, 252335979);
    PolynomialTail(x, x2, x3, x4, third, tmp, inner);
  }

  /** A square does not depend on the sign. */
  lemma SquareSign(x: Int32)
    requires -0x1000_0000 <= x < 0
    ensures 0 <= Srdhm(x, x) <= 0x200_0000
  {
    var v: int := -(x as int);
    ProductBetween(v, v, 0, 0x1000_0000, 0, 0x1000_0000);
    assert x as int * x as int == v * v;
    SrdhmBetween(x, x, 0, 0x200_0000);
  }

  lemma SrdhmCommutes(x: Int32, y: Int32)
    ensures Srdhm(x, y) == Srdhm(y, x)
  {
    SrdhmExact(x, y);
    SrdhmExact(y, x);
    assert x as int * y as int == y as int * x as int;
  }

  /** The lower half. */
  lemma PolynomialLow(x: Int32)
    requires -0x1000_0000 <= x < 0
    ensures SumsFit(x) && 0 < Polynomial(x) <= MAX32
  {
    hide Srdhm, Rdpot, Pow2;
    SmallPowers();
    SquareSign(x);
    var x2 := Srdhm(x, x);
    MulIn(x2, x, 0, 0x200_0000, -0x1000_0000, 0, -0x40_0000, 0);
    var x3 := Srdhm(x2, x);
    MulIn(x2, x2, 0, 0x200_0000, 0, 0x200_0000, 0, 0x8_0000);
    var x4 := Srdhm(x2, x2);
    RdpotBetween(x4, 2, 0, 0x2_0000);
    var third: int := Rdpot(x4, 2) + x3;
    MulIn(ONE_THIRD, third, ONE_THIRD, ONE_THIRD, -0x40_0000, 0x2_0000, -1398102, 43691);
    SrdhmCommutes(third, ONE_THIRD);
    var tmp: int := Srdhm(third, ONE_THIRD) + x2;
    RdpotBetween(tmp, 1, -699051, 16799062);
    var inner: int := x + Rdpot(tmp, 1);
    MulIn(EXP_CONST_TERM, inner, EXP_CONST_TERM, EXP_CONST_TERM, -269134507, 16799062, -237600000, 14826000);
    PolynomialTail(x, x2, x3, x4, third, tmp, inner);
  }

  /** On its whole interval no sum of the polynomial wraps, and the result is a positive fraction. */
  lemma IntervalExact(a: Int32)
    requires -0x2000_0000 <= a <= -1
    ensures SumsFit(a + 0x1000_0000) && ExpOnInterval(a) == Polynomial(a + 0x1000_0000) && 0 < ExpOnInterval(a) <= MAX32
  {
    hide Srdhm, Rdpot, S32;
    var x: Int32 := a + 0x1000_0000;
    SignedRange(x);
    if x >= 0 { PolynomialHigh(x); } else { PolynomialLow(x); }
    PolynomialWords(x);
  }

  lemma PolynomialWords(x: Int32)
    requires SumsFit(x) && S32(x) == x
    ensures ExpOnInterval(x - 0x1000_0000) == Polynomial(x)
  {
    hide Srdhm, Rdpot, S32;
    var x2 := Srdhm(x, x);
    var third: int := Rdpot(Srdhm(x2, x2), 2) + Srdhm(x2, x);
    SignedRange(third);
    var tmp: int := Srdhm(third, ONE_THIRD) + x2;
    SignedRange(tmp);
    var inner: int := x + Rdpot(tmp, 1);
    SignedRange(inner);
    SignedRange(EXP_CONST_TERM + Srdhm(EXP_CONST_TERM, inner));
  }

  /** A factor below one keeps a result in range and never increases it. */
  lemma FactorShrinks(r: Int32, f: int)
    requires r >= 0 && 0 < f <= MAX32
    ensures 0 <= Srdhm(r, f) <= r
  {
    ProductBetween(r, f, 0, r, 0, f);
    MulMono(f, TWO31, r);
    assert r * f == f * r && TWO31 * r == r * TWO31;
    SrdhmBetween(r, f, 0, r);
  }

  lemma {:induction false} BarrelShrinks(integerBits: nat, remainder: int, start: Int32, n: nat)
    requires integerBits <= 5 && n <= |EXP_BARREL| && start >= 0
    ensures 0 <= Barrel(integerBits, remainder, start, n) <= start
  {
    hide Srdhm, Taken;
    if n > 0 {
      BarrelShrinks(integerBits, remainder, start, n - 1);
      var r := Barrel(integerBits, remainder, start, n - 1);
      FactorShrinks(r, EXP_BARREL[n - 1].1);
    }
  }

  // ----- five integer bits, as the softmax uses them -----

  const QUARTER: int := 0x100_0000

  lemma QuarterIs()
    ensures Pow2(24) == QUARTER && Pow2(26) == 4 * QUARTER
  {
    assert Pow2(8) == 256;
    assert Pow2(16) == 65536;
  }

  /** The reduction to a quarter: nothing wraps, and the scaled argument is in the interval of the polynomial. */
  lemma Reduction(a: Int32)
    requires a <= 0
    ensures var m := ModQuarter(a, 5);
            && m == a % QUARTER - QUARTER && -QUARTER <= m <= -1
            && Srmbpot(m, 5) == 32 * m && -0x2000_0000 <= 32 * m <= -32
            && (a < 0 ==> exists q :: 0 <= q <= 127 && m - a == q * QUARTER && S32(m - a) == m - a)
  {
    QuarterIs();
    assert Pow2(5) == 32;
    hide Pow2, Srmbpot;
    var m: int := a % QUARTER - QUARTER;
    SignedRange(m);
    SrmbpotLeft(m, 5);
    if a < 0 {
      var q := -(a / QUARTER) - 1;
      assert 0 <= q <= 127 && m - a == q * QUARTER;
      SignedRange(m - a);
    }
  }

  /** For every word at most zero the result is a fraction from zero to one. */
  lemma ExpRange(a: Int32)
    requires a <= 0
    ensures 0 <= Exp(a, 5) <= MAX32
    ensures SumsFit(S32(32 * ModQuarter(a, 5) + 0x1000_0000))
  {
    hide ModQuarter, Srmbpot, ExpOnInterval, Barrel, Polynomial, SumsFit;
    Reduction(a);
    var m := ModQuarter(a, 5);
    IntervalExact(32 * m);
    SignedRange(32 * m + 0x1000_0000);
    hide S32;
    BarrelShrinks(5, S32(m - a), ExpOnInterval(32 * m), |EXP_BARREL|);
  }

  /** The sum of the powers the barrel selects, in the scale of the argument. */
  function Selected(remainder: int, n: nat): int
    requires n <= |EXP_BARREL|
  {
    if n == 0 then 0
    else Selected(remainder, n - 1) + if Taken(5, remainder, n - 1) then Pow2(26 + EXP_BARREL[n - 1].0) else 0
  }

  lemma HalfOf(q: int, p: int)
    requires p > 0
    ensures q / (2 * p) == q / p / 2
  {
    var f, r := q / p, q % p;
    assert q == f * p + r;
    assert q == (f / 2) * (2 * p) + (f % 2) * p + r;
    DivModUnique(q, 2 * p, f / 2, (f % 2) * p + r);
  }

  lemma Bits(q: int)
    requires 0 <= q <= 127
    ensures q == q % 2 + 2 * (q / 2 % 2) + 4 * (q / 4 % 2) + 8 * (q / 8 % 2) + 16 * (q / 16 % 2) + 32 * (q / 32 % 2) + 64 * (q / 64 % 2)
  {
    var q1 := q / 2;
    var q2 := q1 / 2;
    var q3 := q2 / 2;
    var q4 := q3 / 2;
    var q5 := q4 / 2;
    var q6 := q5 / 2;
    HalfOf(q, 2);
    HalfOf(q, 4);
    HalfOf(q, 8);
    HalfOf(q, 16);
    HalfOf(q, 32);
    assert q == q % 2 + 2 * q1 && q1 == q1 % 2 + 2 * q2 && q2 == q2 % 2 + 2 * q3;
    assert q3 == q3 % 2 + 2 * q4 && q4 == q4 % 2 + 2 * q5 && q5 == q5 % 2 + 2 * q6 && q6 == q6 % 2;
  }

  lemma StageShift(i: nat)
    requires i < 7
    ensures EXP_BARREL[i].0 == i - 2 && Pow2(FractionBits(5) + EXP_BARREL[i].0) == QUARTER * Pow2(i)
  {
    QuarterIs();
    Pow2Add(24, i);
  }

  /** The bit of the remainder a stage looks at is a binary digit of the number of quarters. */
  lemma StageBit(q: int, i: nat)
    requires 0 <= q <= 127 && i < 7
    ensures Taken(5, q * QUARTER, i) <==> q / Pow2(i) % 2 == 1
  {
    StageShift(i);
    hide Pow2;
    ScaledQuotient(q, Pow2(i), QUARTER);
  }

  lemma ScaledQuotient(q: int, p: int, k: int)
    requires p > 0 && k > 0
    ensures (q * k) / (k * p) == q / p
  {
    var f, r := q / p, q % p;
    DivBounds(q, p);
    MulMono(r, p - 1, k);
    DivModUnique(q * k, k * p, f, r * k);
  }

  lemma SelectedOne(q: int, i: nat)
    requires 0 <= q <= 127 && i < 7
    ensures Selected(q * QUARTER, i + 1) == Selected(q * QUARTER, i) + QUARTER * (Pow2(i) * (q / Pow2(i) % 2))
  {
    hide Taken, Pow2;
    StageBit(q, i);
    StageShift(i);
  }

  /** The barrel multiplies in exactly the binary digits of the quarters: below zero, the argument is the part within
      a quarter less the sum of the selected powers. */
  lemma BarrelCoversArgument(a: Int32)
    requires a < 0
    ensures var m := ModQuarter(a, 5); a == m - Selected(S32(m - a), |EXP_BARREL|)
  {
    Reduction(a);
    var m := ModQuarter(a, 5);
    var q :| 0 <= q <= 127 && m - a == q * QUARTER && S32(m - a) == m - a;
    hide ModQuarter, S32, Taken;
    SelectedBits(q);
  }

  lemma SelectedBits(q: int)
    requires 0 <= q <= 127
    ensures Selected(q * QUARTER, |EXP_BARREL|) == q * QUARTER
  {
    hide Selected, Pow2;
    assert Selected(q * QUARTER, 0) == 0 by { NothingSelected(q * QUARTER); }
    SelectedOne(q, 0);
    SelectedOne(q, 1);
    SelectedOne(q, 2);
    SelectedOne(q, 3);
    SelectedOne(q, 4);
    SelectedOne(q, 5);
    SelectedOne(q, 6);
    PowersOfTwo();
    Bits(q);
  }

  lemma NothingSelected(remainder: int)
    ensures Selected(remainder, 0) == 0
  {
  }

  lemma PowersOfTwo()
    ensures Pow2(0) == 1 && Pow2(1) == 2 && Pow2(2) == 4 && Pow2(3) == 8 && Pow2(4) == 16 && Pow2(5) == 32 && Pow2(6) == 64
  {
  }
}
