/** The table-driven softmax of the kernels and the attention built on it. */
module LutSoftmax {
  import opened Words
  import opened Isa
  import opened FixedPoint
  import opened Rows

  // The reference's own table, from -128 on, sixteen entries a row.
  const LUT_ROW0: seq<int> := [17, 17, 18, 18, 18, 19, 19, 19, 19, 20, 20, 20, 21, 21, 21, 22]
  const LUT_ROW1: seq<int> := [22, 22, 23, 23, 23, 24, 24, 25, 25, 25, 26, 26, 27, 27, 27, 28]
  const LUT_ROW2: seq<int> := [28, 29, 29, 30, 30, 31, 31, 32, 32, 33, 33, 34, 34, 35, 35, 36]
  const LUT_ROW3: seq<int> := [36, 37, 38, 38, 39, 39, 40, 41, 41, 42, 43, 43, 44, 45, 45, 46]
  const LUT_ROW4: seq<int> := [47, 47, 48, 49, 50, 51, 51, 52, 53, 54, 55, 55, 56, 57, 58, 59]
  const LUT_ROW5: seq<int> := [60, 61, 62, 63, 64, 65, 66, 67, 68, 69, 70, 71, 72, 74, 75, 76]
  const LUT_ROW6: seq<int> := [77, 78, 79, 81, 82, 83, 85, 86, 87, 89, 90, 91, 93, 94, 96, 97]
  const LUT_ROW7: seq<int> := [99, 100, 102, 104, 105, 107, 109, 110, 112, 114, 116, 117, 119, 121, 123, 125]

  function LutRow(k: int): (row: seq<int>)
    ensures |row| == 16
  {
    if k == 0 then LUT_ROW0 else if k == 1 then LUT_ROW1 else if k == 2 then LUT_ROW2 else if k == 3 then LUT_ROW3
    else if k == 4 then LUT_ROW4 else if k == 5 then LUT_ROW5 else if k == 6 then LUT_ROW6 else LUT_ROW7
  }

  /** The table of exponentials: 127 from zero on, saturating at -128. */
  function TableExp(x: int): int {
    if x >= 0 then 127
    else
      var i := if x < -128 then 0 else x + 128;
      LutRow(i / 16)[i % 16]
  }

  /** The reference's table and the ALU's agree entry by entry. */
  lemma RowIsAlu(k: int)
    requires 0 <= k < 8
    ensures LutRow(k) == Exp8Row(k)
  {
  }

  lemma TableEntry(x: int)
    ensures TableExp(x) == if x >= 0 then 127 else Exp8Entry((if x < -128 then -128 else x) + 128)
  {
    hide LutRow, Exp8Row;
    if x < 0 {
      RowIsAlu((if x < -128 then 0 else x + 128) / 16);
    }
  }

  lemma LowByte(x: int)
    requires -128 <= x <= 127
    ensures SignedByte(x) == x && SignedByte(U32(x)) == x
  {
    if x < 0 {
      assert U32(x) == x + TWO32;
      DivModUnique(x + TWO32, 256, 0x100_0000 - 1, x + 256);
    }
  }

  /** On int8 values it is the ALU's EXP8. */
  lemma TableIsAlu(x: int)
    requires -128 <= x <= 127
    ensures TableExp(x) == Exp8(x) == Exp8(U32(x))
  {
    hide SignedByte, Exp8Entry, TableExp;
    LowByte(x);
    TableEntry(x);
  }

  lemma RowSteps(k: int, j: int)
    requires 0 <= k < 8 && 0 <= j < 15
    ensures 17 <= Exp8Row(k)[j] <= Exp8Row(k)[j + 1] <= 125
  {
    if j < 4 {
    } else if j < 8 {
    } else if j < 12 {
    }
  }

  lemma RowEnds(k: int)
    requires 0 <= k < 7
    ensures Exp8Row(k)[15] <= Exp8Row(k + 1)[0]
  {
  }

  /** Neighbouring entries do not fall. */
  lemma TableSteps(i: int)
    requires 0 <= i < 127
    ensures 17 <= Exp8Entry(i) <= Exp8Entry(i + 1) <= 125
  {
    hide Exp8Row;
    var k, j := i / 16, i % 16;
    RowSteps(k, if j < 15 then j else 14);
    if j < 15 {
      DivModUnique(i + 1, 16, k, j + 1);
    } else {
      DivModUnique(i + 1, 16, k + 1, 0);
      RowEnds(k);
      RowSteps(k + 1, 0);
    }
  }

  lemma {:induction false} TableMono(x: int, y: int)
    requires -128 <= x <= y < 0
    ensures 17 <= TableExp(x) <= TableExp(y) <= 125
    decreases y - x
  {
    hide Exp8Entry, TableExp;
    TableEntry(x);
    TableEntry(y);
    if x == y {
      TableSteps(if x == -128 then 0 else x + 127);
    } else {
      TableSteps(x + 128);
      TableEntry(x + 1);
      TableMono(x + 1, y);
    }
  }

  /** The table never falls, and never leaves 17 to 127. */
  lemma TableExpMono(x: int, y: int)
    requires x <= y
    ensures 17 <= TableExp(x) <= TableExp(y) <= 127
  {
    hide TableExp, Exp8Entry;
    var a, b := (if x < -128 then -128 else x), (if y < -128 then -128 else y);
    TableEntry(x);
    TableEntry(y);
    TableEntry(a);
    TableEntry(b);
    if b < 0 {
      TableMono(a, b);
    } else if a < 0 {
      TableMono(a, a);
    }
  }

  // ----- the softmax -----

  /** The exponential of one logit below the maximum, the difference shifted down and clamped to int8. */
  function ExpOf(score: int, max: int, expShift: nat): int {
    TableExp(Clamp((score - max) / Pow2(expShift), -128, 127))
  }

  function Exps(logits: seq<int>, max: int, expShift: nat): seq<int> {
    if logits == [] then [] else Exps(logits[..|logits| - 1], max, expShift) + [ExpOf(logits[|logits| - 1], max, expShift)]
  }

  function Total(xs: seq<int>): int {
    if xs == [] then 0 else Total(xs[..|xs| - 1]) + xs[|xs| - 1]
  }

  function Quotients(xs: seq<int>, total: int): seq<int>
    requires total != 0
  {
    if xs == [] then [] else Quotients(xs[..|xs| - 1], total) + [xs[|xs| - 1] * 256 / total]
  }

  lemma {:induction false} ExpsAt(logits: seq<int>, max: int, expShift: nat)
    ensures |Exps(logits, max, expShift)| == |logits|
    ensures forall i :: 0 <= i < |logits| ==> Exps(logits, max, expShift)[i] == ExpOf(logits[i], max, expShift)
    decreases |logits|
  {
    hide ExpOf;
    if logits != [] {
      ExpsAt(logits[..|logits| - 1], max, expShift);
    }
  }

  lemma {:induction false} QuotientsAt(xs: seq<int>, total: int)
    requires total != 0
    ensures |Quotients(xs, total)| == |xs|
    ensures forall i :: 0 <= i < |xs| ==> Quotients(xs, total)[i] == xs[i] * 256 / total
    decreases |xs|
  {
    if xs != [] {
      QuotientsAt(xs[..|xs| - 1], total);
    }
  }

  /** The logit at the maximum has the full exponential. */
  lemma ExpOfMax(max: int, expShift: nat)
    ensures ExpOf(max, max, expShift) == 127
  {
    DivModUnique(0, Pow2(expShift), 0, 0);
  }

  lemma ExpRange(score: int, max: int, expShift: nat)
    ensures 17 <= ExpOf(score, max, expShift) <= 127
  {
    TableExpMono(Clamp((score - max) / Pow2(expShift), -128, 127), 127);
  }

  /** A larger logit never has the smaller exponential. */
  lemma ExpOfMono(a: int, b: int, max: int, expShift: nat)
    requires a <= b
    ensures ExpOf(a, max, expShift) <= ExpOf(b, max, expShift)
  {
    var p := Pow2(expShift);
    DivMono(a - max, b - max, p);
    TableExpMono(Clamp((a - max) / p, -128, 127), Clamp((b - max) / p, -128, 127));
  }

  lemma DivMono(a: int, b: int, d: int)
    requires a <= b && d > 0
    ensures a / d <= b / d
  {
    DivBounds(a, d);
    DivBounds(b, d);
    var p, q := a / d, b / d;
    assert (q + 1) * d == q * d + d;
    if p > q {
      MulMono(q + 1, p, d);
    }
  }

  lemma {:induction false} TotalRange(logits: seq<int>, max: int, expShift: nat)
    ensures var t := Total(Exps(logits, max, expShift));
            17 * |logits| <= t <= 127 * |logits| && (max in logits ==> t >= 127)
    decreases |logits|
  {
    hide ExpOf;
    if logits != [] {
      var n := |logits| - 1;
      var front, e := Exps(logits[..n], max, expShift), ExpOf(logits[n], max, expShift);
      TotalRange(logits[..n], max, expShift);
      ExpRange(logits[n], max, expShift);
      assert Exps(logits, max, expShift) == front + [e] && (front + [e])[..|front|] == front;
      if logits[n] == max {
        ExpOfMax(max, expShift);
      } else {
        assert logits == logits[..n] + [logits[n]];
      }
    }
  }

  method RowExps(logits: seq<int>, max: int, expShift: nat) returns (exps: seq<int>, total: int)
    ensures exps == Exps(logits, max, expShift) && total == Total(exps)
  {
    hide ExpOf;
    exps, total := [], 0;
    for i := 0 to |logits|
      invariant exps == Exps(logits[..i], max, expShift) && total == Total(exps)
    {
      assert logits[..i + 1][..i] == logits[..i];
      var e := ExpOf(logits[i], max, expShift);
      assert (exps + [e])[..|exps|] == exps;
      exps := exps + [e];
      total := total + e;
    }
    assert logits[..|logits|] == logits;
  }

  /** The three passes; nothing is returned for an empty row. */
  method RunSoftmax(logits: seq<int>, expShift: nat, outZp: int) returns (ok: bool, out: seq<int>)
    ensures ok <==> logits != []
    ensures ok ==> var q := SoftmaxOf(logits, expShift);
                   |out| == |q| == |logits| && forall i :: 0 <= i < |q| ==> out[i] == q[i] + outZp
  {
    hide ExpOf, Exps, Total, Quotients, MaxOf;
    ok, out := false, [];
    if logits == [] {
      return;
    }
    var max := RowMax(logits);
    TotalRange(logits, max, expShift);
    var exps, total := RowExps(logits, max, expShift);
    ExpsAt(logits, max, expShift);
    QuotientsAt(exps, total);
    for i := 0 to |exps|
      invariant |out| == i && forall j :: 0 <= j < i ==> out[j] == exps[j] * 256 / total + outZp
    {
      out := out + [exps[i] * 256 / total + outZp];
    }
    ok := true;
  }

  /** The weights before the output zero point. */
  function SoftmaxOf(logits: seq<int>, expShift: nat): seq<int>
    requires logits != []
  {
    MaxIsMax(logits);
    TotalRange(logits, MaxOf(logits), expShift);
    var exps := Exps(logits, MaxOf(logits), expShift);
    Quotients(exps, Total(exps))
  }

  lemma {:induction false} QuotientSum(xs: seq<int>, total: int)
    requires total > 0 && forall i :: 0 <= i < |xs| ==> xs[i] >= 0
    ensures var s := Total(Quotients(xs, total)) * total;
            256 * Total(xs) - |xs| * total <= s <= 256 * Total(xs) && (xs != [] ==> 256 * Total(xs) - |xs| * total < s)
    decreases |xs|
  {
    if xs != [] {
      var n := |xs| - 1;
      var front, q := Quotients(xs[..n], total), xs[n] * 256 / total;
      QuotientSum(xs[..n], total);
      assert Quotients(xs, total) == front + [q] && (front + [q])[..|front|] == front;
      DivBounds(xs[n] * 256, total);
      SumOneMore(Total(front), q, total, Total(xs[..n]), xs[n], n);
    }
  }

  lemma SumOneMore(s: int, q: int, total: int, t: int, x: int, n: int)
    requires 256 * t - n * total <= s * total <= 256 * t && q * total <= x * 256 < q * total + total
    ensures 256 * (t + x) - (n + 1) * total < (s + q) * total <= 256 * (t + x)
  {
    assert (s + q) * total == s * total + q * total;
    assert (n + 1) * total == n * total + total;
  }

  /** Conservation: the weights are from 0 to 256, and they sum to at most 256 and to more than 256 less their number. */
  lemma WeightsConserved(logits: seq<int>, expShift: nat)
    requires logits != []
    ensures var q := SoftmaxOf(logits, expShift);
            |q| == |logits| && 256 - |logits| < Total(q) <= 256 && forall i :: 0 <= i < |q| ==> 0 <= q[i] <= 256
  {
    hide ExpOf;
    var max := MaxOf(logits);
    var exps := Exps(logits, max, expShift);
    var total := Total(exps);
    MaxIsMax(logits);
    TotalRange(logits, max, expShift);
    ExpsAt(logits, max, expShift);
    QuotientsAt(exps, total);
    forall i | 0 <= i < |exps|
      ensures 0 <= exps[i]
    {
      ExpRange(logits[i], max, expShift);
    }
    QuotientSum(exps, total);
    var q := Quotients(exps, total);
    BoundedSum(Total(q), total, |logits|);
    forall i | 0 <= i < |q|
      ensures 0 <= q[i] <= 256
    {
      PartOfTotal(exps, i);
      DivMono(0, exps[i] * 256, total);
      DivMono(exps[i] * 256, total * 256, total);
      DivModUnique(total * 256, total, 256, 0);
      DivModUnique(0, total, 0, 0);
    }
  }

  lemma BoundedSum(s: int, total: int, n: int)
    requires total > 0 && 256 * total - n * total < s * total <= 256 * total
    ensures 256 - n < s <= 256
  {
    assert 256 * total - n * total == (256 - n) * total;
    if s > 256 { MulMono(257, s, total); }
    if s <= 256 - n { MulMono(s, 256 - n, total); }
  }

  lemma {:induction false} PartOfTotal(xs: seq<int>, i: nat)
    requires i < |xs| && forall k :: 0 <= k < |xs| ==> xs[k] >= 0
    ensures 0 <= xs[i] <= Total(xs)
    decreases |xs|
  {
    var n := |xs| - 1;
    if i < n {
      PartOfTotal(xs[..n], i);
    } else {
      TotalNonneg(xs[..n]);
    }
  }

  lemma {:induction false} TotalNonneg(xs: seq<int>)
    requires forall k :: 0 <= k < |xs| ==> xs[k] >= 0
    ensures Total(xs) >= 0
    decreases |xs|
  {
    if xs != [] {
      TotalNonneg(xs[..|xs| - 1]);
    }
  }

  /** Order: a larger logit never gets the smaller weight, so an argmax of the logits is an argmax of the weights. */
  lemma OrderKept(logits: seq<int>, expShift: nat, i: nat, j: nat)
    requires i < |logits| && j < |logits| && logits[i] <= logits[j]
    ensures var q := SoftmaxOf(logits, expShift); |q| == |logits| && q[i] <= q[j]
  {
    hide ExpOf;
    var max := MaxOf(logits);
    var exps := Exps(logits, max, expShift);
    MaxIsMax(logits);
    TotalRange(logits, max, expShift);
    ExpsAt(logits, max, expShift);
    QuotientsAt(exps, Total(exps));
    ExpOfMono(logits[i], logits[j], max, expShift);
    DivMono(exps[i] * 256, exps[j] * 256, Total(exps));
  }

  /** The argument of the table: how many whole steps of 2^expShift the logit is below the maximum, never more than 128. */
  lemma ArgumentExactly(score: int, max: int, expShift: nat, d: int)
    requires d * Pow2(expShift) <= score - max < (d + 1) * Pow2(expShift)
    ensures ExpOf(score, max, expShift) == TableExp(if d < -128 then -128 else if d > 127 then 127 else d)
  {
    var p := Pow2(expShift);
    assert (d + 1) * p == d * p + p;
    DivModUnique(score - max, p, d, score - max - d * p);
  }

  /** Each weight is the whole part of 256 times its exponential over the total. */
  lemma WeightOfElement(logits: seq<int>, expShift: nat, i: nat)
    requires i < |logits|
    ensures var q, e, total := SoftmaxOf(logits, expShift), ExpOf(logits[i], MaxOf(logits), expShift), Total(Exps(logits, MaxOf(logits), expShift));
            |q| == |logits| && total >= 127 && q[i] * total <= 256 * e < (q[i] + 1) * total
  {
    hide ExpOf;
    var max := MaxOf(logits);
    var exps := Exps(logits, max, expShift);
    var total := Total(exps);
    MaxIsMax(logits);
    TotalRange(logits, max, expShift);
    ExpsAt(logits, max, expShift);
    QuotientsAt(exps, total);
    DivBounds(exps[i] * 256, total);
    assert (exps[i] * 256 / total + 1) * total == (exps[i] * 256 / total) * total + total;
  }
}
