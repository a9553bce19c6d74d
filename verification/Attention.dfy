/** The attention built on the table-driven softmax, in units of 1/256. */
module Attention {
  import opened Words
  import opened FixedPoint
  import opened Rows
  import opened Packing
  import opened LutSoftmax

  type Matrix = seq<seq<int>>

  predicate Square(m: Matrix, n: nat) { |m| == n && forall i :: 0 <= i < n ==> |m[i]| == n }

  /** The sum of the products of two rows, either scaled first. */
  function RawSum(x: seq<int>, y: seq<int>, a: int, b: int): int
    requires |x| == |y|
  {
    if x == [] then 0 else RawSum(x[..|x| - 1], y[..|y| - 1], a, b) + x[|x| - 1] * a * (y[|y| - 1] * b)
  }

  lemma {:induction false} RawSumIs(x: seq<int>, y: seq<int>, a: int, b: int)
    requires |x| == |y|
    ensures RawSum(x, y, a, b) == a * b * Dot(x, y)
    decreases |x|
  {
    if x != [] {
      var n := |x| - 1;
      RawSumIs(x[..n], y[..n], a, b);
      OneProduct(Dot(x[..n], y[..n]), x[n], y[n], a, b);
    }
  }

  lemma OneProduct(s: int, x: int, y: int, a: int, b: int)
    ensures a * b * s + x * a * (y * b) == a * b * (s + x * y)
  {
    assert x * a * (y * b) == a * b * (x * y);
  }

  function Score(q: seq<int>, k: seq<int>): int
    requires |q| == |k|
  {
    RawSum(q, k, 256, 256) / 256
  }

  /** One output: the weights of a row against a column of values in units of 1/256, shifted back. */
  function Attend(weights: seq<int>, values: seq<int>): int
    requires |weights| == |values|
  {
    RawSum(weights, values, 1, 256) / 256
  }

  /** Neither shift loses anything: a score is 256 times the dot product, an output the dot product itself. */
  lemma ScoreExact(q: seq<int>, k: seq<int>)
    requires |q| == |k|
    ensures Score(q, k) == 256 * Dot(q, k) && Attend(q, k) == Dot(q, k)
  {
    RawSumIs(q, k, 256, 256);
    RawSumIs(q, k, 1, 256);
    DivModUnique(RawSum(q, k, 256, 256), 256, 256 * Dot(q, k), 0);
    DivModUnique(RawSum(q, k, 1, 256), 256, Dot(q, k), 0);
  }

  function Column(m: Matrix, n: nat, k: nat): (c: seq<int>)
    requires Square(m, n) && k < n
    ensures |c| == n && forall j :: 0 <= j < n ==> c[j] == m[j][k]
  {
    seq(n, j requires 0 <= j < n => m[j][k])
  }

  /** The scores of one query, row by row of the keys. */
  method ScoreRow(q: seq<int>, keys: Matrix, n: nat) returns (row: seq<int>)
    requires |q| == n && Square(keys, n)
    ensures |row| == n && forall j :: 0 <= j < n ==> row[j] == 256 * Dot(q, keys[j])
  {
    row := [];
    for j := 0 to n
      invariant |row| == j && forall l :: 0 <= l < j ==> row[l] == 256 * Dot(q, keys[l])
    {
      ScoreExact(q, keys[j]);
      row := row + [Score(q, keys[j])];
    }
  }

  /** The weights of one row of scores. */
  method WeightRow(scores: seq<int>) returns (row: seq<int>)
    requires scores != []
    ensures row == SoftmaxOf(scores, 2)
  {
    hide ExpOf, Exps, Total, Quotients, MaxOf;
    var max := RowMax(scores);
    TotalRange(scores, max, 2);
    var exps, total := RowExps(scores, max, 2);
    ExpsAt(scores, max, 2);
    QuotientsAt(exps, total);
    row := [];
    for j := 0 to |exps|
      invariant |row| == j && forall l :: 0 <= l < j ==> row[l] == exps[l] * 256 / total
    {
      row := row + [exps[j] * 256 / total];
    }
    assert row == Quotients(exps, total);
  }

  method OutputRow(weights: seq<int>, values: Matrix, n: nat) returns (row: seq<int>)
    requires |weights| == n && Square(values, n)
    ensures |row| == n && forall k :: 0 <= k < n ==> row[k] == Dot(weights, Column(values, n, k))
  {
    row := [];
    for k := 0 to n
      invariant |row| == k && forall l :: 0 <= l < k ==> row[l] == Dot(weights, Column(values, n, l))
    {
      ScoreExact(weights, Column(values, n, k));
      row := row + [Attend(weights, Column(values, n, k))];
    }
  }

  /** The whole attention: scores, a softmax of every row of them, and the outputs. */
  method ReferenceAttention(queries: Matrix, keys: Matrix, values: Matrix) returns (scores: Matrix, weights: Matrix, out: Matrix)
    requires Square(queries, |queries|) && Square(keys, |queries|) && Square(values, |queries|)
    ensures var n := |queries|;
            && Square(scores, n) && Square(weights, n) && Square(out, n)
            && (forall i, j :: 0 <= i < n && 0 <= j < n ==> scores[i][j] == 256 * Dot(queries[i], keys[j]))
            && (forall i :: 0 <= i < n ==> weights[i] == SoftmaxOf(scores[i], 2))
            && (forall i, k :: 0 <= i < n && 0 <= k < n ==> out[i][k] == Dot(weights[i], Column(values, n, k)))
  {
    hide Dot, SoftmaxOf;
    var n := |queries|;
    scores, weights, out := [], [], [];
    for i := 0 to n
      invariant |scores| == i && forall l :: 0 <= l < i ==> |scores[l]| == n
      invariant forall l, j :: 0 <= l < i && 0 <= j < n ==> scores[l][j] == 256 * Dot(queries[l], keys[j])
    {
      var row := ScoreRow(queries[i], keys, n);
      scores := scores + [row];
    }
    for i := 0 to n
      invariant |weights| == i && forall l :: 0 <= l < i ==> |weights[l]| == n && weights[l] == SoftmaxOf(scores[l], 2)
    {
      var row := WeightRow(scores[i]);
      WeightsConserved(scores[i], 2);
      weights := weights + [row];
    }
    for i := 0 to n
      invariant |out| == i && forall l :: 0 <= l < i ==> |out[l]| == n
      invariant forall l, k :: 0 <= l < i && 0 <= k < n ==> out[l][k] == Dot(weights[l], Column(values, n, k))
    {
      var row := OutputRow(weights[i], values, n);
      out := out + [row];
    }
  }

  // ----- what the outputs are -----

  /** With all the weight on one value the output is that value in units of 1/256. */
  lemma {:induction false} OneHot(weights: seq<int>, values: seq<int>, i: nat)
    requires |weights| == |values| && i < |weights| && forall j :: 0 <= j < |weights| ==> weights[j] == if j == i then 256 else 0
    ensures Dot(weights, values) == 256 * values[i]
    decreases |weights|
  {
    var n := |weights| - 1;
    if i < n {
      OneHot(weights[..n], values[..n], i);
    } else {
      Unweighted(weights[..n], values[..n]);
    }
  }

  lemma {:induction false} Unweighted(weights: seq<int>, values: seq<int>)
    requires |weights| == |values| && forall j :: 0 <= j < |weights| ==> weights[j] == 0
    ensures Dot(weights, values) == 0
    decreases |weights|
  {
    if weights != [] {
      Unweighted(weights[..|weights| - 1], values[..|values| - 1]);
    }
  }

  /** Values from `lo` to `hi` give outputs from `lo` to `hi` times the total weight. */
  lemma {:induction false} DotRange(weights: seq<int>, values: seq<int>, lo: int, hi: int)
    requires |weights| == |values|
    requires forall i :: 0 <= i < |weights| ==> weights[i] >= 0 && lo <= values[i] <= hi
    ensures Total(weights) * lo <= Dot(weights, values) <= Total(weights) * hi
    decreases |weights|
  {
    if weights != [] {
      var n := |weights| - 1;
      DotRange(weights[..n], values[..n], lo, hi);
      OneMoreValue(Total(weights[..n]), Dot(weights[..n], values[..n]), weights[n], values[n], lo, hi);
    }
  }

  lemma OneMoreValue(t: int, s: int, w: int, v: int, lo: int, hi: int)
    requires w >= 0 && lo <= v <= hi && t * lo <= s <= t * hi
    ensures (t + w) * lo <= s + w * v <= (t + w) * hi
  {
    MulMono(v, hi, w);
    MulMono(lo, v, w);
    assert (t + w) * hi == t * hi + w * hi && (t + w) * lo == t * lo + w * lo;
  }

  /** The attention averages: with at most 256 in all and more than 256 less their number, weights of a softmax keep every
      output between the least and the largest value, but for what rounding down takes off. */
  lemma AttentionAverages(scores: seq<int>, values: seq<int>, lo: int, hi: int)
    requires scores != [] && |scores| == |values| && lo <= 0 <= hi && forall i :: 0 <= i < |values| ==> lo <= values[i] <= hi
    ensures |SoftmaxOf(scores, 2)| == |values| && 256 * lo <= Attend(SoftmaxOf(scores, 2), values) <= 256 * hi
  {
    hide SoftmaxOf;
    WeightsConserved(scores, 2);
    var q := SoftmaxOf(scores, 2);
    DotRange(q, values, lo, hi);
    ScoreExact(q, values);
    MulMono(Total(q), 256, hi);
    MulMono(Total(q), 256, -lo);
  }

  /** Where every value is the same, the output is that value times the total weight, which is 256 or less than the number
      of elements short of it. */
  lemma AttentionOfConstant(scores: seq<int>, values: seq<int>, v: int)
    requires scores != [] && |scores| == |values| && v >= 0 && forall i :: 0 <= i < |values| ==> values[i] == v
    ensures |SoftmaxOf(scores, 2)| == |values| && (256 - |values|) * v <= Attend(SoftmaxOf(scores, 2), values) <= 256 * v
  {
    hide SoftmaxOf;
    WeightsConserved(scores, 2);
    var q := SoftmaxOf(scores, 2);
    DotRange(q, values, v, v);
    ScoreExact(q, values);
    MulMono(Total(q), 256, v);
    MulMono(256 - |values|, Total(q), v);
  }
}
