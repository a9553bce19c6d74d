/** The table of the EXP8 instruction is the exponential, rounded. */
module TableAccuracy {
  import opened ExponentialAccuracy
  import opened LutSoftmax

  // Bounds of exp(-k/64) for k up to 16, and of exp(-k/4) for k up to 7.
  const FINE_LOW: seq<real> := [
    1.0000000000, 0.9844964369, 0.9692332342, 0.9542066655, 0.9394130622, 0.9248488125,
    0.9105103605, 0.8963942056, 0.8824969014, 0.8688150550, 0.8553453259, 0.8420844256,
    0.8290291165, 0.8161762112, 0.8035225718, 0.7910651089, 0.7788007810]
  const FINE_HIGH: seq<real> := [
    1.0000000000, 0.9844964371, 0.9692332347, 0.9542066663, 0.9394130633, 0.9248488138,
    0.9105103621, 0.8963942075, 0.8824969036, 0.8688150574, 0.8553453286, 0.8420844285,
    0.8290291196, 0.8161762145, 0.8035225753, 0.7910651126, 0.7788007849]
  const COARSE_LOW: seq<real> := [
    1.0000000000, 0.7788007810, 0.6065306564, 0.4723665489, 0.3678794372, 0.2865047930,
    0.2231301565, 0.1737739401]
  const COARSE_HIGH: seq<real> := [
    1.0000000000, 0.7788007849, 0.6065306626, 0.4723665561, 0.3678794447, 0.2865048003,
    0.2231301634, 0.1737739464]

  function FineLow(k: nat): real
    requires k <= 16
  {
    FINE_LOW[k]
  }

  function FineHigh(k: nat): real
    requires k <= 16
  {
    FINE_HIGH[k]
  }

  function CoarseLow(k: nat): real
    requires k <= 7
  {
    COARSE_LOW[k]
  }

  function CoarseHigh(k: nat): real
    requires k <= 7
  {
    COARSE_HIGH[k]
  }

  predicate FineBetween(E: real -> real, k: nat)
    requires k <= 16
  {
    FineLow(k) <= E(-(k as real) / 64.0) <= FineHigh(k)
  }

  predicate CoarseBetween(E: real -> real, k: nat)
    requires k <= 7
  {
    CoarseLow(k) <= E(-(k as real) / 4.0) <= CoarseHigh(k)
  }

  lemma OneStep(E: real -> real)
    requires IsExponential(E)
    ensures FineLow(1) <= E(-1.0 / 64.0) <= FineHigh(1)
  {
    SeriesRule(E, -1.0 / 64.0, 4);
    hide IsExponential;
    SeriesToFour(-1.0 / 64.0);
    Factorials();
    assert Power(1.0 / 64.0, 0) == 1.0;
    assert Power(1.0 / 64.0, 1) == 1.0 / 64.0;
    assert Power(1.0 / 64.0, 2) == 1.0 / 4096.0;
    assert Power(1.0 / 64.0, 3) == 1.0 / 262144.0;
    assert Power(1.0 / 64.0, 4) == 1.0 / 16777216.0;
    assert Power(1.0 / 64.0, 5) == 1.0 / 1073741824.0;
  }

  lemma FineSteps(k: nat)
    requires k < 16
    ensures 0.0 < FineLow(k + 1) <= FineLow(k) * FineLow(1) && FineHigh(k) * FineHigh(1) <= FineHigh(k + 1)
  {
  }

  lemma CoarseSteps(k: nat)
    requires k < 7
    ensures 0.0 < CoarseLow(k + 1) <= CoarseLow(k) * FineLow(16) && CoarseHigh(k) * FineHigh(16) <= CoarseHigh(k + 1)
  {
  }

  lemma Bounds(E: real -> real, x: real, y: real, z: real, lo: real, hi: real, lo': real, hi': real)
    requires IsExponential(E) && z == x + y && 0.0 < lo <= E(x) <= hi && 0.0 < lo' <= E(y) <= hi'
    ensures lo * lo' <= E(z) <= hi * hi'
  {
    hide IsExponential;
    SumRule(E, x, y);
    Larger(lo, E(x), lo');
    Larger(lo', E(y), E(x));
    Larger(E(x), hi, E(y));
    Larger(E(y), hi', hi);
  }

  lemma FirstBounds()
    ensures FineLow(0) == FineHigh(0) == CoarseLow(0) == CoarseHigh(0) == 1.0
  {
  }

  lemma {:induction false} FineAt(E: real -> real, k: nat)
    requires IsExponential(E) && k <= 16
    ensures FineBetween(E, k) && FineLow(k) > 0.0
  {
    hide IsExponential, FineLow, FineHigh, CoarseLow, CoarseHigh;
    if k == 0 {
      AtZero(E);
      FirstBounds();
    } else {
      FineAt(E, k - 1);
      OneStep(E);
      FineSteps(0);
      FineSteps(k - 1);
      Bounds(E, -((k - 1) as real) / 64.0, -1.0 / 64.0, -(k as real) / 64.0, FineLow(k - 1), FineHigh(k - 1), FineLow(1), FineHigh(1));
    }
  }

  lemma {:induction false} CoarseAt(E: real -> real, k: nat)
    requires IsExponential(E) && k <= 7
    ensures CoarseBetween(E, k) && CoarseLow(k) > 0.0
  {
    hide IsExponential, FineLow, FineHigh, CoarseLow, CoarseHigh;
    if k == 0 {
      AtZero(E);
      FirstBounds();
    } else {
      CoarseAt(E, k - 1);
      FineAt(E, 16);
      CoarseSteps(k - 1);
      Bounds(E, -((k - 1) as real) / 4.0, -0.25, -(k as real) / 4.0, CoarseLow(k - 1), CoarseHigh(k - 1), FineLow(16), FineHigh(16));
    }
  }

  lemma FirstRows(row: nat, j: nat)
    requires row < 2 && j < 16
    ensures (2 * LutRow(row)[j] - 1) as real <= 254.0 * (CoarseLow(7 - row) * FineLow(16 - j))
    ensures 254.0 * (CoarseHigh(7 - row) * FineHigh(16 - j)) <= (2 * LutRow(row)[j] + 1) as real
  {
  }

  lemma SecondRows(row: nat, j: nat)
    requires 2 <= row < 4 && j < 16
    ensures (2 * LutRow(row)[j] - 1) as real <= 254.0 * (CoarseLow(7 - row) * FineLow(16 - j))
    ensures 254.0 * (CoarseHigh(7 - row) * FineHigh(16 - j)) <= (2 * LutRow(row)[j] + 1) as real
  {
  }

  lemma ThirdRows(row: nat, j: nat)
    requires 4 <= row < 6 && j < 16
    ensures (2 * LutRow(row)[j] - 1) as real <= 254.0 * (CoarseLow(7 - row) * FineLow(16 - j))
    ensures 254.0 * (CoarseHigh(7 - row) * FineHigh(16 - j)) <= (2 * LutRow(row)[j] + 1) as real
  {
  }

  lemma FourthRows(row: nat, j: nat)
    requires 6 <= row < 8 && j < 16
    ensures (2 * LutRow(row)[j] - 1) as real <= 254.0 * (CoarseLow(7 - row) * FineLow(16 - j))
    ensures 254.0 * (CoarseHigh(7 - row) * FineHigh(16 - j)) <= (2 * LutRow(row)[j] + 1) as real
  {
  }

  /** An entry against the bounds. */
  lemma RowNearest(row: nat, j: nat)
    requires row < 8 && j < 16
    ensures (2 * LutRow(row)[j] - 1) as real <= 254.0 * (CoarseLow(7 - row) * FineLow(16 - j))
    ensures 254.0 * (CoarseHigh(7 - row) * FineHigh(16 - j)) <= (2 * LutRow(row)[j] + 1) as real
  {
    hide LutRow, FineLow, FineHigh, CoarseLow, CoarseHigh;
    if row < 2 {
      FirstRows(row, j);
    } else if row < 4 {
      SecondRows(row, j);
    } else if row < 6 {
      ThirdRows(row, j);
    } else {
      FourthRows(row, j);
    }
  }

  /** From the least argument on, up to zero, every entry is 127 exp(x / 64), rounded to the nearest integer. */
  lemma TableNearest(E: real -> real, x: int)
    requires IsExponential(E) && -128 <= x <= 0
    ensures Magnitude(TableExp(x) as real - 127.0 * E(x as real / 64.0)) <= 0.5
  {
    hide IsExponential, LutRow, FineLow, FineHigh, CoarseLow, CoarseHigh;
    if x == 0 {
      AtZero(E);
    } else {
      var row, j := (x + 128) / 16, (x + 128) % 16;
      var a, b := 7 - row, 16 - j;
      CoarseAt(E, a);
      FineAt(E, b);
      RowNearest(row, j);
      Bounds(E, -(a as real) / 4.0, -(b as real) / 64.0, x as real / 64.0, CoarseLow(a), CoarseHigh(a), FineLow(b), FineHigh(b));
      Rounded(TableExp(x), E(x as real / 64.0), CoarseLow(a) * FineLow(b), CoarseHigh(a) * FineHigh(b));
    }
  }

  lemma Rounded(t: int, v: real, lo: real, hi: real)
    requires lo <= v <= hi && (2 * t - 1) as real <= 254.0 * lo && 254.0 * hi <= (2 * t + 1) as real
    ensures Magnitude(t as real - 127.0 * v) <= 0.5
  {
  }
}
