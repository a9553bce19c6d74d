/** Fixed-point primitives on 32-bit words: rounding multiplication, division and shifts, and what they mean. */
module FixedPoint {
  import opened Words

  const MIN32: int := -0x8000_0000
  const MAX32: int := 0x7FFF_FFFF

  // ----- the primitives -----

  /** Saturating rounding doubling high multiplication. */
  function Srdhm(a: int, b: int): Int32 {
    var x, y := S32(a), S32(b);
    if x == y && x == MIN32 then MAX32
    else
      var ab: int := x * y;
      var nudge: int := if ab >= 0 then 0x4000_0000 else 1 - 0x4000_0000;
      S32(TruncDiv(ab + nudge, TWO31))
  }

  /** Rounding division by a power of two: mask, threshold, shift, increment. */
  function Rdpot(x0: int, exponent: nat): Int32 {
    var x := S32(x0);
    if exponent == 0 then x
    else
      var mask: int := Pow2(exponent) - 1;
      var remainder := x % Pow2(exponent);
      var threshold := mask / 2 + (if x < 0 then 1 else 0);
      var result := x / Pow2(exponent);
      S32(if remainder > threshold then result + 1 else result)
  }

  /** Saturating multiplication by a power of two; a negative exponent divides with rounding. */
  function Srmbpot(x0: int, exponent: int): Int32
    requires exponent <= 31
  {
    var x := S32(x0);
    if exponent == 0 then x
    else if exponent < 0 then Rdpot(x, -exponent)
    else
      var threshold := Pow2(31 - exponent) - 1;
      if x > threshold then MAX32
      else if x < -threshold then MIN32
      else S32(x * Pow2(exponent))
  }

  function Rescale(raw: int, srcBits: int, dstBits: int): Int32
    requires srcBits - dstBits <= 31
  {
    Srmbpot(raw, srcBits - dstBits)
  }

  function RoundingHalfSum(a0: int, b0: int): Int32 {
    var s: int := S32(a0) + S32(b0);
    S32(TruncDiv(s + (if s >= 0 then 1 else -1), 2))
  }

  function MultiplyByQuantizedMultiplier(x: int, multiplier: int, shift: int): Int32 {
    var left: nat, right: nat := (if shift > 0 then shift else 0), (if shift < 0 then -shift else 0);
    Rdpot(Srdhm(S32(x * Pow2(left)), multiplier), right)
  }

  // ----- what they mean -----

  function Clamp(x: int, lo: int, hi: int): int {
    if x < lo then lo else if x > hi then hi else x
  }

  /** `n / d` rounded to the nearest integer, ties upwards. */
  function RoundUp(n: int, d: int): int
    requires d > 0
  {
    (2 * n + d) / (2 * d)
  }

  /** `n / d` rounded to the nearest integer, ties away from zero. */
  function RoundAway(n: int, d: int): int
    requires d > 0
  {
    if n >= 0 then RoundUp(n, d) else -RoundUp(-n, d)
  }

  lemma DivBounds(n: int, d: int)
    requires d > 0
    ensures (n / d) * d <= n < (n / d) * d + d
  {
  }

  /** Nearest: the rounded quotient is within half a divisor. */
  lemma RoundUpNear(n: int, d: int)
    requires d > 0
    ensures -d <= 2 * (RoundUp(n, d) * d - n) <= d
  {
    var q := RoundUp(n, d);
    DivBounds(2 * n + d, 2 * d);
    assert q * (2 * d) == 2 * (q * d);
  }

  lemma RoundAwayNear(n: int, d: int)
    requires d > 0
    ensures -d <= 2 * (RoundAway(n, d) * d - n) <= d
  {
    if n >= 0 {
      RoundUpNear(n, d);
    } else {
      RoundUpNear(-n, d);
      assert RoundAway(n, d) * d == -(RoundUp(-n, d) * d);
    }
  }

  /** Rounding the other way up a nearest integer determines it. */
  lemma RoundUpUnique(n: int, d: int, q: int)
    requires d > 0 && -d < 2 * (q * d - n) <= d
    ensures RoundUp(n, d) == q
  {
    var r := 2 * n + d - q * (2 * d);
    assert q * (2 * d) == 2 * (q * d);
    DivModUnique(2 * n + d, 2 * d, q, r);
  }

  lemma MulMono(a: int, b: int, c: int)
    requires a <= b && c >= 0
    ensures a * c <= b * c
  {
  }

  lemma RoundUpMono(m: int, n: int, d: int)
    requires d > 0 && m <= n
    ensures RoundUp(m, d) <= RoundUp(n, d)
  {
    var p, q := RoundUp(m, d), RoundUp(n, d);
    DivBounds(2 * m + d, 2 * d);
    DivBounds(2 * n + d, 2 * d);
    assert (q + 1) * (2 * d) == q * (2 * d) + 2 * d;
    if p > q {
      MulMono(q + 1, p, 2 * d);
    }
  }

  lemma RoundAwayMono(m: int, n: int, d: int)
    requires d > 0 && 0 <= m <= n
    ensures 0 <= RoundAway(m, d) <= RoundAway(n, d)
  {
    RoundUpMono(m, n, d);
    RoundUpMono(0, m, d);
    DivModUnique(d, 2 * d, 0, d);
  }

  lemma Int32Product(x: Int32, y: Int32)
    requires !(x == y == MIN32)
    ensures -0x4000_0000_0000_0000 <= x as int * y as int <= 0x4000_0000_0000_0000 - 0x8000_0000
  {
    var a: int, b: int := Abs(x), Abs(y);
    if a < TWO31 {
      MulMono(a, TWO31 - 1, b);
      MulMono(b, TWO31, TWO31 - 1);
      SignOfProduct(x, y);
    } else if b < TWO31 {
      MulMono(b, TWO31 - 1, a);
      SignOfProduct(x, y);
    }
  }

  lemma SignOfProduct(x: int, y: int)
    ensures x * y == Abs(x) * Abs(y) || x * y == -(Abs(x) * Abs(y))
    ensures Abs(x) * Abs(y) >= 0
  {
  }

  /** Except for the one saturating pair, the product over 2^31, rounded to nearest with ties upwards. */
  lemma SrdhmExact(x: Int32, y: Int32)
    ensures x == y == MIN32 ==> Srdhm(x, y) == MAX32
    ensures !(x == y == MIN32) ==> Srdhm(x, y) == RoundUp(x * y, TWO31) == (x * y + 0x4000_0000) / TWO31
  {
    SignedRange(x);
    SignedRange(y);
    if !(x == y == MIN32) {
      var ab: int := x * y;
      Int32Product(x, y);
      assert ab == x as int * y as int;
      SrdhmRounding(ab);
    }
  }

  lemma SrdhmRounding(ab: int)
    requires -0x4000_0000_0000_0000 <= ab <= 0x4000_0000_0000_0000 - 0x8000_0000
    ensures var nudge := if ab >= 0 then 0x4000_0000 else 1 - 0x4000_0000;
            S32(TruncDiv(ab + nudge, TWO31)) == RoundUp(ab, TWO31) == (ab + 0x4000_0000) / TWO31
  {
    var q := (ab + 0x4000_0000) / TWO31;
    RoundUpUnique(ab, TWO31, q);
    if ab < 0 {
      var m := -(ab + 1 - 0x4000_0000);
      DivModUnique(m, TWO31, -q, m + q * TWO31);
    }
    assert MIN32 <= q <= MAX32;
    SignedRange(q);
  }

  /** The quotient the code forms from a shift, a mask and a threshold. */
  lemma RdpotQuotient(x: int, h: int, q: int)
    requires h > 0
    requires var r := x % (2 * h); q == (if r > h - 1 + (if x < 0 then 1 else 0) then x / (2 * h) + 1 else x / (2 * h))
    ensures q == RoundAway(x, 2 * h)
  {
    var d := 2 * h;
    var f, r := x / d, x % d;
    assert x == f * d + r;
    assert (f + 1) * d == f * d + d;
    assert q * d == f * d || q * d == f * d + d;
    if x >= 0 {
      RoundUpUnique(x, d, q);
    } else {
      assert (-q) * d == -(q * d);
      RoundUpUnique(-x, d, -q);
    }
  }

  lemma RoundAwaySmaller(x: Int32, d: int)
    requires d >= 1
    ensures MIN32 <= RoundAway(x, d) <= MAX32
  {
    var n := Abs(x);
    var q := RoundUp(n, d);
    DivBounds(2 * n + d, 2 * d);
    assert 0 <= q by {
      if q < 0 { MulMono(q, -1, 2 * d); }
    }
    if q > n {
      MulMono(n + 1, q, 2 * d);
      assert (n + 1) * (2 * d) == 2 * (n * d) + 2 * d;
      MulMono(1, d, n);
    }
  }

  /** Division by 2^e, rounded to nearest with ties away from zero. */
  lemma RdpotExact(x: Int32, e: nat)
    ensures Rdpot(x, e) == RoundAway(x, Pow2(e))
  {
    SignedRange(x);
    if e == 0 {
      DivModUnique(2 * Abs(x) + 1, 2, Abs(x), 1);
    } else {
      var d := Pow2(e);
      var q := if x % d > (d - 1) / 2 + (if x < 0 then 1 else 0) then x / d + 1 else x / d;
      RdpotQuotient(x, Pow2(e - 1), q);
      RoundAwaySmaller(x, d);
      SignedRange(q);
    }
  }

  /** A product with `p`, clamped to a word, by comparing the factor with 2^31 / p. */
  lemma ClampedProduct(v: int, p: int, t: int)
    requires p > 0 && t > 0 && p * t == TWO31
    ensures v >= t ==> v * p >= TWO31
    ensures v <= -t ==> v * p <= -TWO31
    ensures -t < v < t ==> -TWO31 < v * p < TWO31
  {
    if v >= t {
      MulMono(t, v, p);
    } else if v <= -t {
      MulMono(v, -t, p);
      assert (-t) * p == -(t * p);
    } else {
      MulMono(v, t - 1, p);
      MulMono(1 - t, v, p);
      assert (t - 1) * p == t * p - p && (1 - t) * p == p - t * p;
    }
  }

  /** A left shift that saturates: the true product, clamped to the range of a word. */
  lemma SrmbpotLeft(x: Int32, e: nat)
    requires e <= 31
    ensures Srmbpot(x, e) == Clamp(x * Pow2(e), MIN32, MAX32)
  {
    SignedRange(x);
    Pow2Split(e);
    var v: int := x;
    assert v * 1 == v;
    ClampedProduct(v, Pow2(e), Pow2(31 - e));
    hide Pow2;
    if MIN32 <= v * Pow2(e) <= MAX32 {
      SignedRange(v * Pow2(e));
    }
  }

  /** A negative exponent rounds to nearest, ties away from zero. */
  lemma SrmbpotRight(x: Int32, e: int)
    requires e < 0
    ensures Srmbpot(x, e) == RoundAway(x, Pow2(-e))
  {
    SignedRange(x);
    RdpotExact(x, -e);
  }

  lemma {:induction false} Pow2Add(a: nat, b: nat)
    ensures Pow2(a + b) == Pow2(a) * Pow2(b)
    decreases a
  {
    if a > 0 {
      Pow2Add(a - 1, b);
      assert Pow2(a + b) == 2 * Pow2(a - 1 + b);
    }
  }

  lemma Pow2Of31()
    ensures Pow2(31) == TWO31
  {
    assert Pow2(8) == 256;
    assert Pow2(16) == 65536;
    assert Pow2(24) == 0x100_0000;
  }

  lemma Pow2Split(e: nat)
    requires e <= 31
    ensures Pow2(e) * Pow2(31 - e) == TWO31
  {
    Pow2Add(e, 31 - e);
    Pow2Of31();
  }

  lemma HalfSumExact(a: Int32, b: Int32)
    ensures RoundingHalfSum(a, b) == RoundAway(a + b, 2)
  {
    hide RoundUp, S32;
    var s: int := a + b;
    SignedRange(a);
    SignedRange(b);
    HalfUp(Abs(s));
    SignedRange(RoundAway(s, 2));
  }

  lemma HalfUp(n: nat)
    ensures RoundUp(n, 2) == (n + 1) / 2
  {
    DivModUnique(2 * n + 2, 4, (n + 1) / 2, 2 * n + 2 - 4 * ((n + 1) / 2));
  }

  // ----- requantisation -----

  /** The single-stage rescale of the kernels, before the clamp: a product, half a unit, a shift. */
  function SingleStage(acc: int, mult: int, shift: nat): int
    requires shift > 0
  {
    (acc * mult + Pow2(shift - 1)) / Pow2(shift)
  }

  lemma SingleStageRounds(acc: int, mult: int, shift: nat)
    requires shift > 0
    ensures SingleStage(acc, mult, shift) == RoundUp(acc * mult, Pow2(shift))
  {
    var d, n, h := Pow2(shift), acc * mult, Pow2(shift - 1);
    DivBounds(n + h, d);
    RoundUpUnique(n, d, (n + h) / d);
  }

  lemma MulBounds(g: int, d: int, e: int)
    requires -d <= g <= d && e > 0
    ensures -(d * e) <= g * e <= d * e
  {
  }

  /** Half a unit of 2^31, or a whole one where it saturates. */
  lemma SrdhmNear(x: Int32, y: Int32)
    ensures -2 * TWO31 <= 2 * (Srdhm(x, y) * TWO31 - x as int * y as int) <= TWO31
  {
    SrdhmExact(x, y);
    if !(x == y == MIN32) {
      RoundUpNear(x as int * y as int, TWO31);
    }
  }

  /** Two roundings in a row, the second one coarser by `g`. */
  lemma TwoRoundings(p: int, y: int, t: int, k: int, g: int)
    requires k > 0 && g >= 1 && -2 * k <= 2 * (y * k - p) <= k && -g <= 2 * (t * g - y) <= g
    ensures -2 * (k * g) <= 2 * (t * (k * g) - p) <= 2 * (k * g)
  {
    if g > 1 {
      var u := 2 * (t * g - y);
      MulBounds(u, g, k);
      assert u * k == 2 * (t * (k * g)) - 2 * (y * k) by {
        assert t * (k * g) == (t * g) * k;
      }
      MulMono(2, g, k);
      assert g * k == k * g;
    }
  }

  /** The two-stage rescale is within a unit of the exact quotient. */
  lemma TwoStageNear(acc: Int32, qm: Int32, right: nat)
    ensures var e := TWO31 * Pow2(right);
            var t := Rdpot(Srdhm(acc, qm), right);
            -2 * e <= 2 * (t * e - acc as int * qm as int) <= 2 * e
  {
    var y, g := Srdhm(acc, qm), Pow2(right);
    RdpotExact(y, right);
    RoundAwayNear(y, g);
    SrdhmNear(acc, qm);
    TwoRoundings(acc as int * qm as int, y, Rdpot(y, right), TWO31, g);
  }

  lemma NoLeftShift(acc: Int32, qm: Int32, shift: int)
    requires shift <= 0
    ensures MultiplyByQuantizedMultiplier(acc, qm, shift) == Rdpot(Srdhm(acc, qm), -shift)
  {
    SignedRange(acc);
    assert acc * Pow2(0) == acc;
  }

  /** Two approximations of `p / d` and `q / e` over a common denominator. */
  lemma Drift(s: int, p: int, d: int, t: int, q: int, e: int)
    requires d > 0 && e > 0 && -d <= 2 * (s * d - p) <= d && -2 * e <= 2 * (t * e - q) <= 2 * e
    ensures -3 * (d * e) <= 2 * ((s - t) * (d * e) - (p * e - q * d)) <= 3 * (d * e)
  {
    var g, h := 2 * (s * d - p), 2 * (t * e - q);
    MulBounds(g, d, e);
    MulBounds(h, 2 * e, d);
    assert g * e == 2 * (s * (d * e)) - 2 * (p * e);
    assert h * d == 2 * (t * (d * e)) - 2 * (q * d);
    assert (2 * e) * d == 2 * (d * e);
    assert (s - t) * (d * e) == s * (d * e) - t * (d * e);
  }

  lemma Cross(a: int, m: int, e: int, q: int, d: int)
    ensures (a * m) * e - (a * q) * d == a * (m * e - q * d)
  {
    assert (a * m) * e == a * (m * e);
    assert (a * q) * d == a * (q * d);
  }

  /** How far the fractions `mult / 2^shift` and `qm / 2^(31 + right)` are apart, over their common denominator. */
  function Apart(mult: int, shift: nat, qm: int, right: nat): int {
    mult * (TWO31 * Pow2(right)) - qm * Pow2(shift)
  }

  function Common(shift: nat, right: nat): int {
    Pow2(shift) * (TWO31 * Pow2(right))
  }

  /** The kernels' single-stage rescale and the reference's two-stage rescale, for every accumulator and whatever the two
      multipliers: their difference is the accumulator times the distance of the multipliers, give or take one and a half. */
  lemma RequantDrift(acc: Int32, qm: Int32, right: nat, mult: int, shift: nat)
    requires shift > 0
    ensures var one, two := SingleStage(acc, mult, shift), MultiplyByQuantizedMultiplier(acc, qm, 0 - right);
            var c := Common(shift, right);
            c > 0 && -3 * c <= 2 * ((one - two) * c - acc * Apart(mult, shift, qm, right)) <= 3 * c
  {
    var d, e: int := Pow2(shift), TWO31 * Pow2(right);
    var a: int, one, two := acc, SingleStage(acc, mult, shift), Rdpot(Srdhm(acc, qm), right);
    NoLeftShift(acc, qm, 0 - right);
    SingleStageRounds(a, mult, shift);
    RoundUpNear(a * mult, d);
    TwoStageNear(acc, qm, right);
    hide RoundUp, SingleStage, Rdpot, Srdhm, Pow2, MultiplyByQuantizedMultiplier;
    Drift(one, a * mult, d, two, a * qm, e);
    Cross(a, mult, e, qm, d);
    MulMono(1, d, e);
  }

  /** Numbers over a common denominator that are less than two apart. */
  lemma LessThanTwo(m: int, c: int, x: int)
    requires c > 0 && -3 * c <= 2 * (m * c - x) <= 3 * c && -c < 2 * x < c
    ensures -1 <= m <= 1
  {
    if m >= 2 {
      MulMono(2, m, c);
    } else if m <= -2 {
      MulMono(m, -2, c);
    }
  }

  predicate WithinOne(one: int, two: int, zp: int) {
    -1 <= one - two <= 1 && -1 <= Clamp(one + zp, -128, 127) - Clamp(two + zp, -128, 127) <= 1
  }

  /** The two rescales differ by at most one, also after the output zero point and the clamp to int8, where the
      distance of the multipliers times the accumulator is below one half; beyond five halves they always differ by more. */
  lemma RequantByDistance(acc: Int32, qm: Int32, right: nat, mult: int, shift: nat, zp: int)
    requires shift > 0
    ensures var one, two := SingleStage(acc, mult, shift), MultiplyByQuantizedMultiplier(acc, qm, 0 - right);
            var x, c := 2 * (acc * Apart(mult, shift, qm, right)), Common(shift, right);
            && (Abs(x) < c ==> WithinOne(one, two, zp))
            && (Abs(x) > 5 * c ==> !(-1 <= one - two <= 1))
  {
    hide SingleStage, MultiplyByQuantizedMultiplier, Apart, Common;
    RequantDrift(acc, qm, right, mult, shift);
    var one, two := SingleStage(acc, mult, shift), MultiplyByQuantizedMultiplier(acc, qm, 0 - right);
    var x, c := acc * Apart(mult, shift, qm, right), Common(shift, right);
    if Abs(2 * x) < c {
      LessThanTwo(one - two, c, x);
    } else if -1 <= one - two <= 1 {
      MulBounds(one - two, 1, c);
    }
  }

  /** If both encode the same real multiplier exactly, this holds for every accumulator. */
  lemma RequantWithinOne(acc: Int32, qm: Int32, right: nat, mult: int, shift: nat, zp: int)
    requires shift > 0 && mult * (TWO31 * Pow2(right)) == qm * Pow2(shift)
    ensures WithinOne(SingleStage(acc, mult, shift), MultiplyByQuantizedMultiplier(acc, qm, 0 - right), zp)
  {
    hide SingleStage, MultiplyByQuantizedMultiplier, Pow2;
    assert Apart(mult, shift, qm, right) == 0;
    assert acc * 0 == 0;
    RequantByDistance(acc, qm, right, mult, shift, zp);
    RequantDrift(acc, qm, right, mult, shift);
  }

  /** `m / d` is a nearest fraction to `num / den` with that denominator. */
  predicate Nearest(m: int, d: int, num: int, den: int) {
    -den <= 2 * (m * den - num * d) <= den
  }

  lemma NearestApart(m: int, d: int, q: int, e: int, num: int, den: int)
    requires d > 0 && e > 0 && den > 0 && Nearest(m, d, num, den) && Nearest(q, e, num, den)
    ensures -(d + e) <= 2 * (m * e - q * d) <= d + e
  {
    var g, h := 2 * (m * den - num * d), 2 * (q * den - num * e);
    MulBounds(g, den, e);
    MulBounds(h, den, d);
    OverDenominator(m, d, num, den, e);
    OverDenominator(q, e, num, den, d);
    assert d * e == e * d;
    Gather(g * e, h * d, m * e, q * d, num * (d * e), den);
    assert den * e + den * d == den * (d + e);
    Scaled(2 * (m * e - q * d), den, d + e, g * e - h * d);
  }

  lemma OverDenominator(m: int, d: int, num: int, den: int, e: int)
    ensures 2 * (m * den - num * d) * e == 2 * ((m * e) * den) - 2 * (num * (d * e))
  {
    assert (m * den - num * d) * e == (m * den) * e - (num * d) * e;
    assert (m * den) * e == (m * e) * den;
    assert (num * d) * e == num * (d * e);
  }

  lemma Gather(x: int, y: int, p: int, s: int, k: int, den: int)
    requires x == 2 * (p * den) - 2 * k && y == 2 * (s * den) - 2 * k
    ensures x - y == 2 * (p - s) * den
  {
  }

  lemma Scaled(x: int, den: int, b: int, y: int)
    requires den > 0 && y == x * den && -(den * b) <= y <= den * b
    ensures -b <= x <= b
  {
    assert den * b == b * den;
    if x > b { MulMono(b + 1, x, den); } else if x < -b { MulMono(x, -b - 1, den); }
  }

  lemma SmallBeside(a: int, x: int, b: int, c: int)
    requires -b <= 2 * x <= b && Abs(a) * b < c
    ensures Abs(2 * (a * x)) < c
  {
    MulMono(2 * Abs(x), b, Abs(a));
    SignOfProduct(a, x);
  }

  /** If both are the nearest ones to a real multiplier `num / den` in their own precision, the two rescales differ by at
      most one as long as the accumulator is small beside those precisions. */
  lemma RequantRounded(acc: Int32, qm: Int32, right: nat, mult: int, shift: nat, zp: int, num: int, den: int)
    requires shift > 0 && den > 0 && Nearest(mult, Pow2(shift), num, den) && Nearest(qm, TWO31 * Pow2(right), num, den)
    requires Abs(acc) * (Pow2(shift) + TWO31 * Pow2(right)) < Pow2(shift) * (TWO31 * Pow2(right))
    ensures WithinOne(SingleStage(acc, mult, shift), MultiplyByQuantizedMultiplier(acc, qm, 0 - right), zp)
  {
    hide SingleStage, MultiplyByQuantizedMultiplier, Pow2, Nearest;
    var d, e: int, a: int := Pow2(shift), TWO31 * Pow2(right), acc;
    var x := Apart(mult, shift, qm, right);
    NearestApart(mult, d, qm, e, num, den);
    SmallBeside(a, x, d + e, d * e);
    RequantByDistance(acc, qm, right, mult, shift, zp);
  }
}
