/** The integer convolutions: padding with the zero point, folded biases, and the rescaled accumulators. */
module Convolution {
  import opened Words
  import opened FixedPoint
  import opened Packing

  // ----- SAME padding -----

  function SamePadding(inSize: int, outSize: int, kernel: int, stride: int): (int, int) {
    var need := (outSize - 1) * stride + kernel - inSize;
    var total := if need > 0 then need else 0;
    (total / 2, total - total / 2)
  }

  /** Every window of the output lies in the padded input, whatever the sizes and the stride. */
  lemma WindowsFit(inSize: int, outSize: int, kernel: int, stride: int, pos: int, k: int)
    requires 0 <= pos < outSize && 0 <= k < kernel && stride >= 0 && inSize >= 0
    ensures var (before, after) := SamePadding(inSize, outSize, kernel, stride);
            0 <= before <= after <= before + 1 && 0 <= pos * stride + k < inSize + before + after
  {
    MulMono(pos, outSize - 1, stride);
    MulMono(0, pos, stride);
  }

  /** Tap `k` of the window at output position `pos` lies in a padded input of that size. */
  predicate Reaches(pos: int, stride: int, k: int, size: int) { pos * stride + k < size }

  /** The padding is the least that lets every window lie in the padded input, and splits as evenly as it can. */
  lemma LeastPadding(inSize: int, outSize: int, kernel: int, stride: int, size: int)
    requires outSize > 0 && kernel > 0 && size >= inSize
    requires forall pos, k :: 0 <= pos < outSize && 0 <= k < kernel ==> Reaches(pos, stride, k, size)
    ensures var (before, after) := SamePadding(inSize, outSize, kernel, stride); inSize + before + after <= size
  {
    assert Reaches(outSize - 1, stride, kernel - 1, size);
  }

  // ----- planes -----

  datatype Geometry = Geometry(h: nat, w: nat, hp: nat, wp: nat, top: int, left: int)

  /** A cell of the padded plane: the input where it overlaps, the zero point elsewhere. */
  function PaddedAt(plane: seq<int>, g: Geometry, zp: int, r: int, c: int): int
    requires |plane| == g.h * g.w
  {
    var (i, j) := (r - g.top, c - g.left);
    if 0 <= i < g.h && 0 <= j < g.w then CellInPlane(g.h, g.w, i, j); plane[i * g.w + j] else zp
  }

  lemma CellInPlane(h: int, w: int, i: int, j: int)
    requires 0 <= i < h && 0 <= j < w
    ensures 0 <= i * w + j < h * w
  {
    MulMono(i, h - 1, w);
    assert (h - 1) * w == h * w - w;
    MulMono(0, i, w);
  }

  /** The padded plane, row by row. */
  ghost predicate IsPadded(padded: seq<int>, plane: seq<int>, g: Geometry, zp: int)
    requires |plane| == g.h * g.w
  {
    |padded| == g.hp * g.wp
    && forall r, c | 0 <= r < g.hp && 0 <= c < g.wp :: CellOf(padded, g, r, c) == PaddedAt(plane, g, zp, r, c)
  }

  function CellOf(padded: seq<int>, g: Geometry, r: int, c: int): int
    requires |padded| == g.hp * g.wp && 0 <= r < g.hp && 0 <= c < g.wp
  {
    CellInPlane(g.hp, g.wp, r, c);
    padded[r * g.wp + c]
  }

  lemma CellSplit(w: int, r: int, c: int)
    requires 0 <= c < w
    ensures (r * w + c) / w == r && (r * w + c) % w == c
  {
    DivModUnique(r * w + c, w, r, c);
  }

  /** The value at flat position `k` of the padded plane. */
  predicate PaddedCell(plane: seq<int>, g: Geometry, zp: int, k: int, v: int)
    requires |plane| == g.h * g.w
  {
    g.wp > 0 && v == PaddedAt(plane, g, zp, k / g.wp, k % g.wp)
  }

  lemma PaddedCellAt(plane: seq<int>, g: Geometry, zp: int, r: int, c: int, v: int)
    requires |plane| == g.h * g.w && 0 <= r < g.hp && 0 <= c < g.wp
    ensures PaddedCell(plane, g, zp, r * g.wp + c, v) <==> v == PaddedAt(plane, g, zp, r, c)
    ensures 0 <= r * g.wp + c < g.hp * g.wp
  {
    CellSplit(g.wp, r, c);
    CellInPlane(g.hp, g.wp, r, c);
    hide PaddedAt;
  }

  lemma PaddedFromCells(padded: seq<int>, plane: seq<int>, g: Geometry, zp: int)
    requires |plane| == g.h * g.w && |padded| == g.hp * g.wp
    requires forall k :: 0 <= k < |padded| ==> PaddedCell(plane, g, zp, k, padded[k])
    ensures IsPadded(padded, plane, g, zp)
  {
    hide PaddedCell, PaddedAt;
    forall r, c | 0 <= r < g.hp && 0 <= c < g.wp
      ensures CellOf(padded, g, r, c) == PaddedAt(plane, g, zp, r, c)
    {
      CellInPlane(g.hp, g.wp, r, c);
      PaddedCellAt(plane, g, zp, r, c, padded[r * g.wp + c]);
    }
  }

  lemma NextRow(r: int, w: int)
    ensures (r + 1) * w == r * w + w
  {
  }

  /** Filled cell by cell, row after row. */
  method PadPlane(plane: seq<int>, g: Geometry, zp: int) returns (padded: array<int>)
    requires |plane| == g.h * g.w
    ensures fresh(padded) && IsPadded(padded[..], plane, g, zp)
  {
    hide PaddedCell, IsPadded;
    padded := new int[g.hp * g.wp];
    for r := 0 to g.hp
      invariant forall k :: 0 <= k < r * g.wp ==> k < padded.Length && PaddedCell(plane, g, zp, k, padded[k])
    {
      var rowIn := r - g.top;
      for c := 0 to g.wp
        invariant forall k :: 0 <= k < r * g.wp + c ==> k < padded.Length && PaddedCell(plane, g, zp, k, padded[k])
      {
        var colIn := c - g.left;
        var v := zp;
        if 0 <= rowIn < g.h && 0 <= colIn < g.w {
          CellInPlane(g.h, g.w, rowIn, colIn);
          v := plane[rowIn * g.w + colIn];
        }
        PaddedCellAt(plane, g, zp, r, c, v);
        padded[r * g.wp + c] := v;
      }
      NextRow(r, g.wp);
    }
    PaddedFromCells(padded[..], plane, g, zp);
  }

  // ----- taps -----

  const KERNEL_WIDTH := 3

  /** The window of one output position: its top left corner in the padded plane and its size. */
  datatype Window = Window(row: int, col: int, taps: nat)

  predicate Inside(win: Window, g: Geometry) {
    && 0 <= win.row && 0 <= win.col
    && (win.taps > 0 ==> win.row + (win.taps - 1) / KERNEL_WIDTH < g.hp && win.col + KERNEL_WIDTH <= g.wp)
  }

  /** The accumulator over the first `n` taps of the padded plane. */
  function TapSum(padded: seq<int>, g: Geometry, win: Window, weights: seq<int>, n: nat): int
    requires |padded| == g.hp * g.wp && Inside(win, g) && n <= win.taps <= |weights|
  {
    if n == 0 then 0
    else
      TapSum(padded, g, win, weights, n - 1)
      + CellOf(padded, g, win.row + (n - 1) / KERNEL_WIDTH, win.col + (n - 1) % KERNEL_WIDTH) * weights[n - 1]
  }

  /** What the quantised convolution means: the taps inside the image, each less the zero point. */
  function TrueSum(plane: seq<int>, g: Geometry, zp: int, win: Window, weights: seq<int>, n: nat): int
    requires |plane| == g.h * g.w && n <= win.taps <= |weights|
  {
    if n == 0 then 0
    else
      var (i, j) := (win.row + (n - 1) / KERNEL_WIDTH - g.top, win.col + (n - 1) % KERNEL_WIDTH - g.left);
      TrueSum(plane, g, zp, win, weights, n - 1)
      + if 0 <= i < g.h && 0 <= j < g.w then CellInPlane(g.h, g.w, i, j); (plane[i * g.w + j] - zp) * weights[n - 1] else 0
  }

  function Sum(xs: seq<int>): int {
    if xs == [] then 0 else Sum(xs[..|xs| - 1]) + xs[|xs| - 1]
  }

  function BiasFold(bias: int, weights: seq<int>, zp: int): int {
    bias - zp * Sum(weights)
  }

  /** One tap more, on both sides. */
  lemma FoldedTap(s: int, t: int, sum: int, zp: int, x: int, w: int)
    requires s - zp * sum == t
    ensures (s + x * w) - zp * (sum + w) == t + (x - zp) * w
  {
    assert (x - zp) * w == x * w - zp * w;
    assert zp * (sum + w) == zp * sum + zp * w;
  }

  /** The input under tap `k`, padding included. */
  function TapInput(plane: seq<int>, g: Geometry, zp: int, win: Window, k: nat): int
    requires |plane| == g.h * g.w
  {
    PaddedAt(plane, g, zp, win.row + k / KERNEL_WIDTH, win.col + k % KERNEL_WIDTH)
  }

  lemma SumStep(xs: seq<int>, k: nat)
    requires k < |xs|
    ensures Sum(xs[..k + 1]) == Sum(xs[..k]) + xs[k]
  {
    assert xs[..k + 1][..k] == xs[..k];
  }

  lemma {:induction false} FoldedTaps(padded: seq<int>, plane: seq<int>, g: Geometry, zp: int, win: Window, weights: seq<int>, n: nat)
    requires |plane| == g.h * g.w && IsPadded(padded, plane, g, zp) && Inside(win, g) && n <= win.taps <= |weights|
    ensures TapSum(padded, g, win, weights, n) - zp * Sum(weights[..n]) == TrueSum(plane, g, zp, win, weights, n)
    decreases n
  {
    if n > 0 {
      var k := n - 1;
      FoldedTaps(padded, plane, g, zp, win, weights, k);
      SumStep(weights, k);
      hide TapSum, TrueSum, Sum, IsPadded, Inside, TapInput;
      FoldedTap(TapSum(padded, g, win, weights, k), TrueSum(plane, g, zp, win, weights, k), Sum(weights[..k]), zp,
                TapInput(plane, g, zp, win, k), weights[k]);
    }
  }

  /** Padding with the zero point and folding it into the bias leave the convolution as it is: the accumulator is the
      bias plus the weighted sum, over the taps inside the image, of the inputs less the zero point. */
  lemma FoldPreservesConvolution(padded: seq<int>, plane: seq<int>, g: Geometry, zp: int, win: Window, weights: seq<int>, bias: int)
    requires |plane| == g.h * g.w && IsPadded(padded, plane, g, zp) && Inside(win, g) && |weights| == win.taps
    ensures BiasFold(bias, weights, zp) + TapSum(padded, g, win, weights, win.taps)
            == bias + TrueSum(plane, g, zp, win, weights, win.taps)
  {
    FoldedTaps(padded, plane, g, zp, win, weights, win.taps);
    assert weights[..win.taps] == weights;
  }

  // ----- overflow -----

  function AbsSum(xs: seq<int>): int {
    if xs == [] then 0 else AbsSum(xs[..|xs| - 1]) + Abs(xs[|xs| - 1])
  }

  function AccMaxBound(weights: seq<int>): int {
    AbsSum(weights) * 255
  }

  lemma DifferenceBound(x: int, zp: int, w: int)
    requires Int8(x) && Int8(zp)
    ensures Abs((x - zp) * w) <= Abs(w) * 255
  {
    SignOfProduct(x - zp, w);
    MulMono(Abs(x - zp), 255, Abs(w));
  }

  /** The accumulator without its bias stays within the bound; the bias itself is not covered by it. */
  lemma {:induction false} AccWithinBound(plane: seq<int>, g: Geometry, zp: int, win: Window, weights: seq<int>, n: nat)
    requires |plane| == g.h * g.w && n <= win.taps <= |weights| && Int8s(plane) && Int8(zp)
    ensures Abs(TrueSum(plane, g, zp, win, weights, n)) <= AbsSum(weights[..n]) * 255
    decreases n
  {
    if n > 0 {
      AccWithinBound(plane, g, zp, win, weights, n - 1);
      var (i, j) := (win.row + (n - 1) / KERNEL_WIDTH - g.top, win.col + (n - 1) % KERNEL_WIDTH - g.left);
      if 0 <= i < g.h && 0 <= j < g.w {
        CellInPlane(g.h, g.w, i, j);
        DifferenceBound(plane[i * g.w + j], zp, weights[n - 1]);
      }
      assert weights[..n][..n - 1] == weights[..n - 1];
    }
  }

  // ----- the channels -----

  /** The kernels' final line: single-stage rescale, output zero point, clamp to int8. */
  function Requantised(acc: int, mult: int, shift: nat, outZp: int): int
    requires shift > 0
  {
    Clamp(SingleStage(acc, mult, shift) + outZp, -128, 127)
  }

  /** What that line means: the number nearest to acc * mult / 2^shift, the upper one if there are two, offset and cut to int8. */
  ghost predicate Quantised(v: int, acc: int, mult: int, shift: nat, outZp: int) {
    exists q: int ::
      && Pow2(shift) * (2 * q - 1) <= 2 * (acc * mult) < Pow2(shift) * (2 * q + 1)
      && v == if q + outZp < -128 then -128 else if q + outZp > 127 then 127 else q + outZp
  }

  lemma NearestAbove(n: int, d: int)
    requires d > 0
    ensures d * (2 * RoundUp(n, d) - 1) <= 2 * n < d * (2 * RoundUp(n, d) + 1)
  {
    var q := RoundUp(n, d);
    DivBounds(2 * n + d, 2 * d);
    assert q * (2 * d) == d * (2 * q);
  }

  lemma RequantisedIs(acc: int, mult: int, shift: nat, outZp: int)
    requires shift > 0
    ensures Quantised(Requantised(acc, mult, shift, outZp), acc, mult, shift, outZp)
  {
    SingleStageRounds(acc, mult, shift);
    hide RoundUp, SingleStage, Pow2;
    NearestAbove(acc * mult, Pow2(shift));
  }

  datatype Channel = Channel(weights: seq<int>, biasEff: int, mult: int, shift: nat)

  function WindowAt(row: int, col: int, stride: int, taps: nat): Window {
    Window(row * stride, col * stride, taps)
  }

  /** One output value of a channel, from the padded plane. */
  function OutputAt(padded: seq<int>, g: Geometry, ch: Channel, win: Window, outZp: int): int
    requires |padded| == g.hp * g.wp && Inside(win, g) && win.taps == |ch.weights| && ch.shift > 0
  {
    Requantised(ch.biasEff + TapSum(padded, g, win, ch.weights, win.taps), ch.mult, ch.shift, outZp)
  }

  predicate AllInside(g: Geometry, hOut: nat, wOut: nat, stride: int, taps: nat) {
    forall r, c | 0 <= r < hOut && 0 <= c < wOut :: Inside(WindowAt(r, c, stride, taps), g)
  }

  /** The value at flat position `k` of a channel's output. */
  predicate OutputCell(padded: seq<int>, g: Geometry, ch: Channel, stride: int, wOut: nat, outZp: int, k: int, v: int)
    requires |padded| == g.hp * g.wp && ch.shift > 0
  {
    wOut > 0
    && var win := WindowAt(k / wOut, k % wOut, stride, |ch.weights|);
       Inside(win, g) && v == OutputAt(padded, g, ch, win, outZp)
  }

  lemma OutputCellAt(padded: seq<int>, g: Geometry, ch: Channel, stride: int, hOut: nat, wOut: nat, outZp: int, r: int, c: int)
    requires |padded| == g.hp * g.wp && ch.shift > 0 && 0 <= r < hOut && 0 <= c < wOut
    requires Inside(WindowAt(r, c, stride, |ch.weights|), g)
    ensures OutputCell(padded, g, ch, stride, wOut, outZp, r * wOut + c, OutputAt(padded, g, ch, WindowAt(r, c, stride, |ch.weights|), outZp))
    ensures 0 <= r * wOut + c < hOut * wOut
  {
    CellSplit(wOut, r, c);
    CellInPlane(hOut, wOut, r, c);
    hide OutputAt, Inside, WindowAt;
  }

  /** One channel of a layer: every output position, with its taps accumulated from the folded bias on. */
  method RunChannel(padded: seq<int>, g: Geometry, ch: Channel, hOut: nat, wOut: nat, stride: int, outZp: int) returns (out: array<int>)
    requires |padded| == g.hp * g.wp && AllInside(g, hOut, wOut, stride, |ch.weights|) && ch.shift > 0
    ensures fresh(out) && out.Length == hOut * wOut
    ensures forall k :: 0 <= k < out.Length ==> OutputCell(padded, g, ch, stride, wOut, outZp, k, out[k])
  {
    hide OutputAt, OutputCell, Inside, WindowAt;
    out := new int[hOut * wOut];
    for row := 0 to hOut
      invariant forall k :: 0 <= k < row * wOut ==> k < out.Length && OutputCell(padded, g, ch, stride, wOut, outZp, k, out[k])
    {
      for col := 0 to wOut
        invariant forall k :: 0 <= k < row * wOut + col ==> k < out.Length && OutputCell(padded, g, ch, stride, wOut, outZp, k, out[k])
      {
        var win := WindowAt(row, col, stride, |ch.weights|);
        OutputCellAt(padded, g, ch, stride, hOut, wOut, outZp, row, col);
        SameTaps(row, col, stride, |ch.weights|);
        var v := RunWindow(padded, g, ch, win, outZp);
        out[row * wOut + col] := v;
      }
      NextRow(row, wOut);
    }
  }

  lemma SameTaps(row: int, col: int, stride: int, taps: nat)
    ensures WindowAt(row, col, stride, taps).taps == taps
  {
  }

  method RunWindow(padded: seq<int>, g: Geometry, ch: Channel, win: Window, outZp: int) returns (v: int)
    requires |padded| == g.hp * g.wp && Inside(win, g) && win.taps == |ch.weights| && ch.shift > 0
    ensures v == OutputAt(padded, g, ch, win, outZp)
  {
    var acc := ch.biasEff;
    for tap := 0 to win.taps
      invariant acc == ch.biasEff + TapSum(padded, g, win, ch.weights, tap)
    {
      var r, c := win.row + tap / KERNEL_WIDTH, win.col + tap % KERNEL_WIDTH;
      CellInPlane(g.hp, g.wp, r, c);
      acc := acc + padded[r * g.wp + c] * ch.weights[tap];
    }
    v := Requantised(acc, ch.mult, ch.shift, outZp);
  }

  /** SAME padding of both dimensions puts every window of the layer inside the padded plane. */
  lemma SameWindowsInside(h: nat, w: nat, hOut: nat, wOut: nat, kernelHeight: nat, stride: int, g: Geometry)
    requires stride >= 0 && kernelHeight > 0
    requires var (top, bottom) := SamePadding(h, hOut, kernelHeight, stride);
             var (left, right) := SamePadding(w, wOut, KERNEL_WIDTH, stride);
             g == Geometry(h, w, h + top + bottom, w + left + right, top, left)
    ensures AllInside(g, hOut, wOut, stride, kernelHeight * KERNEL_WIDTH)
  {
    forall r, c | 0 <= r < hOut && 0 <= c < wOut
      ensures Inside(WindowAt(r, c, stride, kernelHeight * KERNEL_WIDTH), g)
    {
      WindowsFit(h, hOut, kernelHeight, stride, r, kernelHeight - 1);
      WindowsFit(w, wOut, KERNEL_WIDTH, stride, c, KERNEL_WIDTH - 1);
      MulMono(0, r, stride);
      MulMono(0, c, stride);
    }
  }
}
