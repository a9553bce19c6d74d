/** The layers of the network on host integers, each proved to be the quantised layer it stands for. */
module Layers {
  import opened Words
  import opened FixedPoint
  import opened Packing
  import opened Convolution

  // ----- spatial layers -----

  datatype Layer = Layer(g: Geometry, hOut: nat, wOut: nat, stride: int, inZp: int, outZp: int, channels: seq<Channel>)

  predicate Sized(l: Layer, taps: nat) {
    AllInside(l.g, l.hOut, l.wOut, l.stride, taps)
    && forall c :: 0 <= c < |l.channels| ==> |l.channels[c].weights| == taps && l.channels[c].shift > 0
  }

  /** The stored biases are the layer's biases with the input zero point folded in. */
  predicate Folded(l: Layer, bias: seq<int>) {
    |bias| == |l.channels|
    && forall c :: 0 <= c < |bias| ==> l.channels[c].biasEff == BiasFold(bias[c], l.channels[c].weights, l.inZp)
  }

  /** The cell (i, j) of an image less the zero point, times a weight; nothing outside the image. */
  function Weighted(plane: seq<int>, h: nat, w: nat, zp: int, i: int, j: int, weight: int): int
    requires |plane| == h * w
  {
    if 0 <= i < h && 0 <= j < w then CellInPlane(h, w, i, j); (plane[i * w + j] - zp) * weight else 0
  }

  /** The taps from the `t`-th on at output position (r, c): three to a row, from the corner that the stride gives, in the
      coordinates of the unpadded image. */
  function TapsFrom(plane: seq<int>, l: Layer, weights: seq<int>, r: int, c: int, t: nat): int
    requires |plane| == l.g.h * l.g.w && t <= |weights|
    decreases |weights| - t
  {
    if t == |weights| then 0
    else
      Weighted(plane, l.g.h, l.g.w, l.inZp, r * l.stride + t / 3 - l.g.top, c * l.stride + t % 3 - l.g.left, weights[t])
      + TapsFrom(plane, l, weights, r, c, t + 1)
  }

  /** The value the quantised convolution puts at flat position `k`, on the unpadded image and with the layer's own bias. */
  ghost predicate Convolved(plane: seq<int>, l: Layer, ch: Channel, bias: int, k: int, v: int)
    requires |plane| == l.g.h * l.g.w
  {
    l.wOut > 0 && Quantised(v, bias + TapsFrom(plane, l, ch.weights, k / l.wOut, k % l.wOut, 0), ch.mult, ch.shift, l.outZp)
  }

  /** Tap by tap, from the front and from the back. */
  lemma {:induction false} TapsAre(plane: seq<int>, l: Layer, weights: seq<int>, r: int, c: int, t: nat)
    requires |plane| == l.g.h * l.g.w && t <= |weights|
    ensures var win := WindowAt(r, c, l.stride, |weights|);
            win.taps == |weights|
            && TrueSum(plane, l.g, l.inZp, win, weights, t) + TapsFrom(plane, l, weights, r, c, t) == TrueSum(plane, l.g, l.inZp, win, weights, win.taps)
    decreases |weights| - t
  {
    hide TrueSum, Weighted;
    if t < |weights| {
      TapsAre(plane, l, weights, r, c, t + 1);
      OneTap(plane, l, weights, r, c, t);
    }
  }

  lemma OneTap(plane: seq<int>, l: Layer, weights: seq<int>, r: int, c: int, t: nat)
    requires |plane| == l.g.h * l.g.w && t < |weights|
    ensures var win := WindowAt(r, c, l.stride, |weights|);
            t < win.taps && TrueSum(plane, l.g, l.inZp, win, weights, t + 1)
            == TrueSum(plane, l.g, l.inZp, win, weights, t)
               + Weighted(plane, l.g.h, l.g.w, l.inZp, r * l.stride + t / 3 - l.g.top, c * l.stride + t % 3 - l.g.left, weights[t])
  {
  }

  lemma CellConvolved(padded: seq<int>, plane: seq<int>, l: Layer, ch: Channel, bias: int, k: int, v: int)
    requires |plane| == l.g.h * l.g.w && IsPadded(padded, plane, l.g, l.inZp) && ch.shift > 0
    requires ch.biasEff == BiasFold(bias, ch.weights, l.inZp) && OutputCell(padded, l.g, ch, l.stride, l.wOut, l.outZp, k, v)
    ensures Convolved(plane, l, ch, bias, k, v)
  {
    hide TapSum, Requantised, Quantised, IsPadded, BiasFold, Inside;
    var win := WindowAt(k / l.wOut, k % l.wOut, l.stride, |ch.weights|);
    FoldPreservesConvolution(padded, plane, l.g, l.inZp, win, ch.weights, bias);
    TapsAre(plane, l, ch.weights, k / l.wOut, k % l.wOut, 0);
    assert TrueSum(plane, l.g, l.inZp, win, ch.weights, 0) == 0;
    hide TrueSum, TapsFrom;
    RequantisedIs(bias + TapsFrom(plane, l, ch.weights, k / l.wOut, k % l.wOut, 0), ch.mult, ch.shift, l.outZp);
  }

  /** One channel over one image. */
  method RunPlane(padded: seq<int>, ghost plane: seq<int>, l: Layer, ch: Channel, ghost bias: int) returns (out: seq<int>)
    requires |plane| == l.g.h * l.g.w && IsPadded(padded, plane, l.g, l.inZp) && |padded| == l.g.hp * l.g.wp
    requires AllInside(l.g, l.hOut, l.wOut, l.stride, |ch.weights|) && ch.shift > 0
    requires ch.biasEff == BiasFold(bias, ch.weights, l.inZp)
    ensures |out| == l.hOut * l.wOut && forall k :: 0 <= k < |out| ==> Convolved(plane, l, ch, bias, k, out[k])
  {
    hide IsPadded, AllInside, BiasFold, OutputCell, Convolved;
    var cells := RunChannel(padded, l.g, ch, l.hOut, l.wOut, l.stride, l.outZp);
    out := cells[..];
    forall k | 0 <= k < |out|
      ensures Convolved(plane, l, ch, bias, k, out[k])
    {
      CellConvolved(padded, plane, l, ch, bias, k, out[k]);
    }
  }

  /** The stem: one input plane, padded once, under every output channel. */
  method RunStem(plane: seq<int>, l: Layer, ghost taps: nat, ghost bias: seq<int>) returns (out: seq<seq<int>>)
    requires |plane| == l.g.h * l.g.w && Sized(l, taps) && Folded(l, bias)
    ensures |out| == |l.channels|
    ensures forall c :: 0 <= c < |out| ==>
              |out[c]| == l.hOut * l.wOut && forall k :: 0 <= k < |out[c]| ==> Convolved(plane, l, l.channels[c], bias[c], k, out[c][k])
  {
    hide Convolved, BiasFold, AllInside;
    var padded := PadPlane(plane, l.g, l.inZp);
    out := [];
    for c := 0 to |l.channels|
      invariant |out| == c && padded.Length == l.g.hp * l.g.wp && IsPadded(padded[..], plane, l.g, l.inZp)
      invariant forall d :: 0 <= d < c ==>
                  |out[d]| == l.hOut * l.wOut && forall k :: 0 <= k < |out[d]| ==> Convolved(plane, l, l.channels[d], bias[d], k, out[d][k])
    {
      var values := RunPlane(padded[..], plane, l, l.channels[c], bias[c]);
      out := out + [values];
    }
  }

  /** Depthwise: every channel has its own input plane. */
  method RunDepthwise(planes: seq<seq<int>>, l: Layer, ghost taps: nat, ghost bias: seq<int>) returns (out: seq<seq<int>>)
    requires |planes| == |l.channels| && Sized(l, taps) && Folded(l, bias)
    requires forall c :: 0 <= c < |planes| ==> |planes[c]| == l.g.h * l.g.w
    ensures |out| == |l.channels|
    ensures forall c :: 0 <= c < |out| ==>
              |out[c]| == l.hOut * l.wOut && forall k :: 0 <= k < |out[c]| ==> Convolved(planes[c], l, l.channels[c], bias[c], k, out[c][k])
  {
    hide Convolved, BiasFold, AllInside, IsPadded;
    out := [];
    for c := 0 to |l.channels|
      invariant |out| == c
      invariant forall d :: 0 <= d < c ==>
                  |out[d]| == l.hOut * l.wOut && forall k :: 0 <= k < |out[d]| ==> Convolved(planes[d], l, l.channels[d], bias[d], k, out[d][k])
    {
      var padded := PadPlane(planes[c], l.g, l.inZp);
      PaddedSize(padded[..], planes[c], l.g, l.inZp);
      var values := RunPlane(padded[..], planes[c], l, l.channels[c], bias[c]);
      out := out + [values];
    }
  }

  lemma PaddedSize(padded: seq<int>, plane: seq<int>, g: Geometry, zp: int)
    requires |plane| == g.h * g.w && IsPadded(padded, plane, g, zp)
    ensures |padded| == g.hp * g.wp
  {
  }

  // ----- pointwise and fully connected layers -----

  /** The weighted sum of the inputs less the zero point. */
  function ShiftedDot(x: seq<int>, zp: int, w: seq<int>): int
    requires |x| == |w|
  {
    if x == [] then 0 else ShiftedDot(x[..|x| - 1], zp, w[..|w| - 1]) + (x[|x| - 1] - zp) * w[|w| - 1]
  }

  lemma {:induction false} FoldedDot(x: seq<int>, zp: int, w: seq<int>, bias: int)
    requires |x| == |w|
    ensures BiasFold(bias, w, zp) + Dot(x, w) == bias + ShiftedDot(x, zp, w)
    decreases |x|
  {
    if x != [] {
      var n := |x| - 1;
      FoldedDot(x[..n], zp, w[..n], bias);
      FoldedTap(Dot(x[..n], w[..n]), ShiftedDot(x[..n], zp, w[..n]), Sum(w[..n]), zp, x[n], w[n]);
    } else {
      assert zp * 0 == 0;
    }
  }

  method UnpackWords(words: seq<int>) returns (taps: seq<int>)
    ensures taps == UnpackAll(words)
  {
    taps := [];
    assert words[0..] == words;
    for i := 0 to |words|
      invariant taps + UnpackAll(words[i..]) == UnpackAll(words)
    {
      assert words[i..][1..] == words[i + 1..];
      assert taps + (Unpack4(words[i]) + UnpackAll(words[i + 1..])) == (taps + Unpack4(words[i])) + UnpackAll(words[i + 1..]);
      taps := taps + Unpack4(words[i]);
    }
    assert words[|words|..] == [] && taps + [] == taps;
  }

  /** One output of a packed layer: the words of its taps are unpacked and the products accumulated from the folded bias on.
      The result is the layer's own: bias plus the weighted inputs less the zero point, requantised. */
  method RunPacked(input: seq<int>, words: seq<int>, ghost taps: seq<int>, biasEff: int, ghost bias: int, ghost inZp: int,
                   mult: int, shift: nat, outZp: int)
    returns (v: int)
    requires |input| == |taps| && |taps| % 4 == 0 && Int8s(taps) && words == PackWords(taps)
    requires biasEff == BiasFold(bias, taps, inZp) && shift > 0
    ensures v == Requantised(bias + ShiftedDot(input, inZp, taps), mult, shift, outZp)
    ensures Quantised(v, bias + ShiftedDot(input, inZp, taps), mult, shift, outZp)
  {
    hide Requantised, BiasFold, PackWords;
    UnpackAllPacked(taps);
    var w := UnpackWords(words);
    var acc := biasEff;
    for cin := 0 to |input|
      invariant acc == biasEff + Dot(input[..cin], w[..cin])
    {
      assert input[..cin + 1][..cin] == input[..cin] && w[..cin + 1][..cin] == w[..cin];
      acc := acc + input[cin] * w[cin];
    }
    assert input[..|input|] == input && w[..|input|] == w;
    FoldedDot(input, inZp, taps, bias);
    v := Requantised(acc, mult, shift, outZp);
    RequantisedIs(acc, mult, shift, outZp);
  }

  /** A pointwise or fully connected layer: the packed words of all output channels, one after the other. */
  datatype DotLayer = DotLayer(cin4: nat, words: seq<int>, biasEff: seq<int>, mult: seq<int>, shift: seq<nat>, outZp: int)

  /** The layer stands for these taps, biases and input zero point. */
  predicate Stands(l: DotLayer, taps: seq<seq<int>>, bias: seq<int>, inZp: int) {
    && |taps| == |bias| == |l.biasEff| == |l.mult| == |l.shift|
    && (forall c :: 0 <= c < |taps| ==> |taps[c]| == 4 * l.cin4 && Int8s(taps[c]) && l.shift[c] > 0)
    && (forall c :: 0 <= c < |taps| ==> l.biasEff[c] == BiasFold(bias[c], taps[c], inZp))
    && l.words == AllWords(taps)
  }

  /** What the quantised layer gives for one input vector in one output channel. */
  ghost predicate Weighed(input: seq<int>, l: DotLayer, taps: seq<seq<int>>, bias: seq<int>, inZp: int, c: nat, v: int)
    requires Stands(l, taps, bias, inZp) && c < |taps| && |input| == 4 * l.cin4
  {
    Quantised(v, bias[c] + ShiftedDot(input, inZp, taps[c]), l.mult[c], l.shift[c], l.outZp)
  }

  lemma {:induction false} PackedLength(taps: seq<int>)
    requires |taps| % 4 == 0
    ensures |PackWords(taps)| == |taps| / 4
    decreases |taps|
  {
    hide Pack4;
    if taps != [] {
      PackedLength(taps[4..]);
    }
  }

  /** The words of one channel are where the layer looks for them. */
  lemma {:induction false} ChannelWords(taps: seq<seq<int>>, cin4: nat, c: nat)
    requires c < |taps| && forall i :: 0 <= i < |taps| ==> |taps[i]| == 4 * cin4
    ensures |AllWords(taps)| == |taps| * cin4 && 0 <= c * cin4 <= (c + 1) * cin4 <= |AllWords(taps)|
    ensures AllWords(taps)[c * cin4..(c + 1) * cin4] == PackWords(taps[c])
    decreases |taps|
  {
    hide PackWords;
    var n := |taps| - 1;
    PackedLength(taps[n]);
    assert (n + 1) * cin4 == n * cin4 + cin4;
    assert (c + 1) * cin4 == c * cin4 + cin4;
    if n > 0 {
      ChannelWords(taps[..n], cin4, if c < n then c else 0);
    }
    if c < n {
      MulMono(c + 1, n, cin4);
      assert AllWords(taps)[c * cin4..(c + 1) * cin4] == AllWords(taps[..n])[c * cin4..(c + 1) * cin4];
    }
  }

  /** Fully connected: one output for each channel. */
  method RunFc(input: seq<int>, l: DotLayer, ghost taps: seq<seq<int>>, ghost bias: seq<int>, ghost inZp: int) returns (out: seq<int>)
    requires Stands(l, taps, bias, inZp) && |input| == 4 * l.cin4
    ensures |out| == |taps| && forall c :: 0 <= c < |out| ==> Weighed(input, l, taps, bias, inZp, c, out[c])
  {
    hide BiasFold, ShiftedDot, Requantised, AllWords, PackWords;
    out := [];
    for c := 0 to |l.mult|
      invariant |out| == c && forall d :: 0 <= d < c ==> Weighed(input, l, taps, bias, inZp, d, out[d])
    {
      ChannelWords(taps, l.cin4, c);
      var v := RunPacked(input, l.words[c * l.cin4..(c + 1) * l.cin4], taps[c], l.biasEff[c], bias[c], inZp, l.mult[c], l.shift[c], l.outZp);
      out := out + [v];
    }
  }

  /** The inputs of all channels at one pixel. */
  function Pixel(planes: seq<seq<int>>, p: nat): (x: seq<int>)
    requires forall c :: 0 <= c < |planes| ==> p < |planes[c]|
    ensures |x| == |planes| && forall c :: 0 <= c < |x| ==> x[c] == planes[c][p]
  {
    seq(|planes|, c requires 0 <= c < |planes| => planes[c][p])
  }

  predicate Planes(planes: seq<seq<int>>, hw: nat) {
    forall c :: 0 <= c < |planes| ==> |planes[c]| == hw
  }

  /** One pixel of one output channel. */
  method RunPixel(planes: seq<seq<int>>, hw: nat, p: nat, w: seq<int>, biasEff: int) returns (acc: int)
    requires Planes(planes, hw) && p < hw && |w| == |planes|
    ensures acc == biasEff + Dot(Pixel(planes, p), w)
  {
    ghost var x := Pixel(planes, p);
    acc := biasEff;
    for cin := 0 to |planes|
      invariant acc == biasEff + Dot(x[..cin], w[..cin])
    {
      assert x[..cin + 1][..cin] == x[..cin] && w[..cin + 1][..cin] == w[..cin];
      acc := acc + planes[cin][p] * w[cin];
    }
    assert x[..|planes|] == x && w[..|planes|] == w;
  }

  ghost predicate WeighedPlane(planes: seq<seq<int>>, hw: nat, l: DotLayer, taps: seq<seq<int>>, bias: seq<int>, inZp: int, c: nat, out: seq<int>)
    requires Stands(l, taps, bias, inZp) && c < |taps| && |planes| == 4 * l.cin4 && Planes(planes, hw)
  {
    |out| == hw && forall p :: 0 <= p < hw ==> Weighed(Pixel(planes, p), l, taps, bias, inZp, c, out[p])
  }

  /** One output channel of a pointwise layer. */
  method RunPointwiseChannel(planes: seq<seq<int>>, hw: nat, l: DotLayer, c: nat, ghost taps: seq<seq<int>>, ghost bias: seq<int>, ghost inZp: int)
    returns (out: seq<int>)
    requires Stands(l, taps, bias, inZp) && c < |taps| && |planes| == 4 * l.cin4 && Planes(planes, hw)
    ensures WeighedPlane(planes, hw, l, taps, bias, inZp, c, out)
  {
    hide BiasFold, ShiftedDot, Requantised, AllWords, PackWords, Dot, Pixel;
    ChannelWords(taps, l.cin4, c);
    UnpackAllPacked(taps[c]);
    var w := UnpackWords(l.words[c * l.cin4..(c + 1) * l.cin4]);
    out := [];
    for p := 0 to hw
      invariant |out| == p && forall i :: 0 <= i < p ==> Weighed(Pixel(planes, i), l, taps, bias, inZp, c, out[i])
    {
      var acc := RunPixel(planes, hw, p, w, l.biasEff[c]);
      FoldedDot(Pixel(planes, p), inZp, taps[c], bias[c]);
      RequantisedIs(acc, l.mult[c], l.shift[c], l.outZp);
      out := out + [Requantised(acc, l.mult[c], l.shift[c], l.outZp)];
    }
  }

  /** Pointwise: every output channel at every pixel. */
  method RunPointwise(planes: seq<seq<int>>, hw: nat, l: DotLayer, ghost taps: seq<seq<int>>, ghost bias: seq<int>, ghost inZp: int)
    returns (out: seq<seq<int>>)
    requires Stands(l, taps, bias, inZp) && |planes| == 4 * l.cin4 && Planes(planes, hw)
    ensures |out| == |taps| && forall c :: 0 <= c < |out| ==> WeighedPlane(planes, hw, l, taps, bias, inZp, c, out[c])
  {
    hide Weighed, WeighedPlane, Pixel, BiasFold, AllWords;
    out := [];
    for c := 0 to |l.mult|
      invariant |out| == c && forall d :: 0 <= d < c ==> WeighedPlane(planes, hw, l, taps, bias, inZp, d, out[d])
    {
      var values := RunPointwiseChannel(planes, hw, l, c, taps, bias, inZp);
      out := out + [values];
    }
  }

  /** The words the RTL accumulates with its packed dot product give the same accumulator, modulo 2^32. */
  lemma PackedAccumulator(input: seq<int>, taps: seq<int>, bias: int, inZp: int)
    requires |input| == |taps| && |taps| % 4 == 0 && Int8s(taps) && Int8s(input)
    ensures Chunked(input, taps, U32(BiasFold(bias, taps, inZp))) == U32(bias + ShiftedDot(input, inZp, taps))
  {
    hide BiasFold, U32, Chunked;
    ChunkedIsFlat(input, taps, BiasFold(bias, taps, inZp));
    FoldedDot(input, inZp, taps, bias);
  }

  // ----- multipliers and shifts -----

  /** Python's round: to the nearest integer, ties to the even one. */
  function RoundEven(n: int, d: int): int
    requires d > 0
  {
    var q, r := n / d, n % d;
    if 2 * r < d then q else if 2 * r > d then q + 1 else if q % 2 == 0 then q else q + 1
  }

  lemma RoundEvenNear(n: int, d: int)
    requires d > 0
    ensures -d <= 2 * (RoundEven(n, d) * d - n) <= d
  {
    DivBounds(n, d);
    var q, r := n / d, n % d;
    assert n == q * d + r;
    assert (q + 1) * d == q * d + d;
  }

  /** Within half a divisor, and even if exactly half a divisor away. */
  predicate EvenNearest(n: int, d: int, m: int) {
    -d <= 2 * (m * d - n) <= d && (Abs(2 * (m * d - n)) == d ==> m % 2 == 0)
  }

  /** The nearest integer to n / d, and of two nearest ones the even one. */
  lemma RoundEvenExactly(n: int, d: int, m: int)
    requires d > 0
    ensures m == RoundEven(n, d) <==> EvenNearest(n, d, m)
  {
    hide RoundEven, EvenNearest;
    RoundEvenIsNearest(n, d);
    var e := RoundEven(n, d);
    if EvenNearest(n, d, m) {
      OneNearest(n, d, if m <= e then m else e, if m <= e then e else m);
    }
  }

  lemma RoundEvenIsNearest(n: int, d: int)
    requires d > 0
    ensures EvenNearest(n, d, RoundEven(n, d))
  {
    DivBounds(n, d);
    var q, r := n / d, n % d;
    assert n == q * d + r && (q + 1) * d == q * d + d;
  }

  lemma OneNearest(n: int, d: int, m: int, e: int)
    requires d > 0 && EvenNearest(n, d, m) && EvenNearest(n, d, e) && m <= e
    ensures m == e
  {
    hide EvenNearest;
    Between(n, d, m, e);
    AtMostOne(e - m, d);
  }

  lemma Between(n: int, d: int, m: int, e: int)
    requires d > 0 && EvenNearest(n, d, m) && EvenNearest(n, d, e)
    ensures (e - m) * d <= d && ((e - m) * d == d ==> m % 2 == 0 && e % 2 == 0)
  {
    var x, y := m * d, e * d;
    assert (e - m) * d == y - x;
  }

  lemma AtMostOne(k: int, d: int)
    requires d > 0 && k * d <= d
    ensures k <= 1 && (k == 1 ==> k * d == d)
  {
    if k >= 2 {
      MulMono(2, k, d);
    }
  }

  /** Whether the multiplier for a shift fits a word and cannot overflow the product with the accumulator. */
  predicate ShiftFits(num: int, den: int, accMax: int, shift: nat)
    requires den > 0
  {
    var mult := RoundEven(num * Pow2(shift), den);
    Abs(mult) < TWO31 && Abs(mult) * accMax < TWO31
  }

  /** The largest shift that fits, searched from the top; an error if none does. The real multiplier is num / den. */
  method DeriveMultShift(num: int, den: int, accMax: int, maxShift: nat) returns (r: Option<(int, nat)>)
    requires den > 0
    ensures r.Some? ==> 0 < r.value.1 <= maxShift && r.value.0 == RoundEven(num * Pow2(r.value.1), den)
                        && ShiftFits(num, den, accMax, r.value.1)
                        && forall s: nat :: r.value.1 < s <= maxShift ==> !ShiftFits(num, den, accMax, s)
    ensures r.None? ==> forall s: nat :: 0 < s <= maxShift ==> !ShiftFits(num, den, accMax, s)
  {
    hide RoundEven;
    var shift := maxShift;
    while shift > 0
      invariant shift <= maxShift && forall s: nat :: shift < s <= maxShift ==> !ShiftFits(num, den, accMax, s)
    {
      var mult := RoundEven(num * Pow2(shift), den);
      if Abs(mult) < TWO31 && Abs(mult) * accMax < TWO31 {
        return Some((mult, shift));
      }
      shift := shift - 1;
    }
    return None;
  }

  /** A shift fits just if its multiplier is a word and its product with every accumulator up to the bound is one. */
  lemma FitsExactly(num: int, den: int, accMax: nat, shift: nat)
    requires den > 0
    ensures ShiftFits(num, den, accMax, shift)
            <==> var mult := RoundEven(num * Pow2(shift), den);
                 Abs(mult) < TWO31 && forall acc :: Abs(acc) <= accMax ==> Abs(mult * acc) < TWO31
  {
    hide RoundEven;
    var mult := RoundEven(num * Pow2(shift), den);
    forall acc | Abs(acc) <= accMax
      ensures Abs(mult * acc) <= Abs(mult) * accMax
    {
      MulMono(Abs(acc), accMax, Abs(mult));
      SignOfProduct(mult, acc);
    }
    assert Abs(accMax) <= accMax && Abs(mult * accMax) == Abs(mult) * accMax by { SignOfProduct(mult, accMax); }
  }

  /** With the derived multiplier the product with the accumulator, less its bias, stays in a signed word. */
  lemma ProductInRange(num: int, den: int, shift: nat, plane: seq<int>, g: Geometry, zp: int, win: Window, weights: seq<int>)
    requires den > 0 && ShiftFits(num, den, AccMaxBound(weights), shift)
    requires |plane| == g.h * g.w && win.taps == |weights| && Int8s(plane) && Int8(zp)
    ensures var mult := RoundEven(num * Pow2(shift), den);
            Abs(mult * TrueSum(plane, g, zp, win, weights, win.taps)) < TWO31
  {
    var mult, acc := RoundEven(num * Pow2(shift), den), TrueSum(plane, g, zp, win, weights, win.taps);
    AccWithinBound(plane, g, zp, win, weights, win.taps);
    assert weights[..win.taps] == weights;
    hide TrueSum, RoundEven;
    MulMono(Abs(acc), AccMaxBound(weights), Abs(mult));
    SignOfProduct(mult, acc);
  }

  /** The accumulator of a pointwise or fully connected layer, less its bias, stays within the same bound. */
  lemma {:induction false} DotWithinBound(x: seq<int>, zp: int, w: seq<int>)
    requires |x| == |w| && Int8s(x) && Int8(zp)
    ensures Abs(ShiftedDot(x, zp, w)) <= AccMaxBound(w)
    decreases |x|
  {
    if x != [] {
      var n := |x| - 1;
      DotWithinBound(x[..n], zp, w[..n]);
      DifferenceBound(x[n], zp, w[n]);
    }
  }

  /** The bound is attained where all weights have one sign: by the largest inputs beside the smallest zero point. */
  lemma {:induction false} BoundAttained(x: seq<int>, w: seq<int>)
    requires |x| == |w| && (forall i :: 0 <= i < |x| ==> x[i] == 127)
    requires (forall i :: 0 <= i < |w| ==> w[i] >= 0) || (forall i :: 0 <= i < |w| ==> w[i] <= 0)
    ensures Abs(ShiftedDot(x, -128, w)) == AccMaxBound(w)
    ensures (forall i :: 0 <= i < |w| ==> w[i] >= 0) ==> ShiftedDot(x, -128, w) >= 0
    ensures (forall i :: 0 <= i < |w| ==> w[i] <= 0) ==> ShiftedDot(x, -128, w) <= 0
    decreases |x|
  {
    if x != [] {
      BoundAttained(x[..|x| - 1], w[..|x| - 1]);
    }
  }

  /** The same for these layers: their products with the derived multiplier stay in a signed word. */
  lemma DotProductInRange(num: int, den: int, shift: nat, x: seq<int>, zp: int, w: seq<int>)
    requires den > 0 && ShiftFits(num, den, AccMaxBound(w), shift)
    requires |x| == |w| && Int8s(x) && Int8(zp)
    ensures Abs(RoundEven(num * Pow2(shift), den) * ShiftedDot(x, zp, w)) < TWO31
  {
    var mult, acc := RoundEven(num * Pow2(shift), den), ShiftedDot(x, zp, w);
    DotWithinBound(x, zp, w);
    hide ShiftedDot, RoundEven;
    MulMono(Abs(acc), AccMaxBound(w), Abs(mult));
    SignOfProduct(mult, acc);
  }

  /** The multiplier is the nearest one for its shift: mult / 2^shift is within half a unit in the last place. */
  lemma MultiplierNear(num: int, den: int, shift: nat)
    requires den > 0
    ensures -den <= 2 * (RoundEven(num * Pow2(shift), den) * den - num * Pow2(shift)) <= den
  {
    RoundEvenNear(num * Pow2(shift), den);
  }

  // ----- the two requantisations of one real multiplier -----

  /** `num / den` times 2^right has its leading bit behind the point. */
  predicate Mantissa(num: int, den: int, right: nat) {
    den > 0 && den <= 2 * (num * Pow2(right)) && num * Pow2(right) < den
  }

  /** The 31-bit multiplier and right shift the two-stage rescale is given: rounded half away from zero, halved where it
      rounds up to 2^31, zero where the shift exceeds 31. */
  function QuantizeMultiplier(num: int, den: int, right: nat): (int, int)
    requires Mantissa(num, den, right)
  {
    var q := RoundAway(num * (TWO31 * Pow2(right)), den);
    var qm, r := if q == TWO31 then TWO31 / 2 else q, if q == TWO31 then right - 1 else right;
    if r > 31 then (0, 0) else (qm, r)
  }

  lemma QuantizedRange(num: int, den: int, e: int)
    requires den > 0 && den * (TWO31 / 2) <= num * e < den * TWO31
    ensures TWO31 / 2 <= RoundAway(num * e, den) <= TWO31
  {
    assert den * (TWO31 / 2) == (TWO31 / 2) * den && den * TWO31 == TWO31 * den;
    RoundUpUnique((TWO31 / 2) * den, den, TWO31 / 2);
    RoundUpUnique(TWO31 * den, den, TWO31);
    hide RoundUp;
    RoundUpMono((TWO31 / 2) * den, num * e, den);
    RoundUpMono(num * e, TWO31 * den, den);
  }

  /** It has 31 bits and is a nearest one, even where it was halved. */
  lemma QuantizedNearest(num: int, den: int, right: nat)
    requires Mantissa(num, den, right) && right <= 31
    ensures var (qm, r) := QuantizeMultiplier(num, den, right);
            TWO31 / 2 <= qm <= MAX32 && (r >= 0 ==> Nearest(qm, TWO31 * Pow2(r), num, den))
  {
    var p := Pow2(right);
    MantissaScaled(num, den, p);
    QuantizedRange(num, den, TWO31 * p);
    NearestAway(num, den, TWO31 * p);
    if RoundAway(num * (TWO31 * p), den) == TWO31 && right > 0 {
      assert p == 2 * Pow2(right - 1);
      hide RoundAway, Nearest, Pow2;
      NearestHalved(TWO31 / 2, TWO31 * Pow2(right - 1), num, den);
    }
  }

  lemma MantissaScaled(num: int, den: int, p: int)
    requires den <= 2 * (num * p) && num * p < den
    ensures den * (TWO31 / 2) <= num * (TWO31 * p) < den * TWO31
  {
    assert num * (TWO31 * p) == TWO31 * (num * p);
  }

  lemma NearestAway(num: int, den: int, e: int)
    requires den > 0
    ensures Nearest(RoundAway(num * e, den), e, num, den)
  {
    RoundAwayNear(num * e, den);
  }

  lemma NearestHalved(m: int, e: int, num: int, den: int)
    requires den > 0 && Nearest(2 * m, 2 * e, num, den)
    ensures Nearest(m, e, num, den)
  {
    assert num * (2 * e) == 2 * (num * e) && (2 * m) * den == 2 * (m * den);
  }

  /** The derived single-stage multiplier of a shift and the quantised two-stage multiplier of the same real number: the
      rescaled outputs differ by at most one as long as the accumulator is small beside the two precisions. */
  lemma DerivedWithinOne(acc: Int32, num: int, den: int, right: nat, shift: nat, zp: int)
    requires Mantissa(num, den, right) && right <= 31 && shift > 0 && QuantizeMultiplier(num, den, right).1 >= 0
    requires var e := TWO31 * Pow2(QuantizeMultiplier(num, den, right).1);
             Abs(acc) * (Pow2(shift) + e) < Pow2(shift) * e
    ensures var (qm, r) := QuantizeMultiplier(num, den, right);
            WithinOne(SingleStage(acc, RoundEven(num * Pow2(shift), den), shift), MultiplyByQuantizedMultiplier(acc, qm, 0 - r), zp)
  {
    hide RoundEven, SingleStage, MultiplyByQuantizedMultiplier, QuantizeMultiplier, Pow2;
    QuantizedNearest(num, den, right);
    MultiplierNear(num, den, shift);
    var (qm, r) := QuantizeMultiplier(num, den, right);
    RequantRounded(acc, qm, r, RoundEven(num * Pow2(shift), den), shift, zp, num, den);
  }

  /** Not for every accumulator: for the real multiplier 7/27 and 65536 taps of magnitude one, the derivation gives 66 at
      shift 8, and the accumulator 881 is rescaled to 227 by one scheme and to 229 by the other. */
  lemma TwoApart()
    ensures ShiftFits(7, 27, 65536 * 255, 8) && forall s: nat :: 8 < s <= 30 ==> !ShiftFits(7, 27, 65536 * 255, s)
    ensures RoundEven(7 * Pow2(8), 27) == 66 && Mantissa(7, 27, 1) && QuantizeMultiplier(7, 27, 1) == (1113510040, 1)
    ensures SingleStage(881, 66, 8) == 227 && MultiplyByQuantizedMultiplier(881, 1113510040, -1) == 229
    ensures Clamp(227 - 109, -128, 127) == 118 && Clamp(229 - 109, -128, 127) == 120
  {
    assert Pow2(8) == 256 && Pow2(7) == 128 && Pow2(1) == 2;
    forall s: nat | 8 < s <= 30
      ensures !ShiftFits(7, 27, 65536 * 255, s)
    {
      TooPrecise(s);
    }
    QuantizedExample();
    SignedRange(881);
    SrdhmExact(881, 1113510040);
    RoundUpUnique(881 * 1113510040, TWO31, 457);
    NoLeftShift(881, 1113510040, -1);
    RdpotExact(457, 1);
    HalfUp(457);
  }

  lemma QuantizedExample()
    ensures Mantissa(7, 27, 1) && QuantizeMultiplier(7, 27, 1) == (1113510040, 1)
  {
    assert Pow2(1) == 2;
    RoundUpUnique(7 * (TWO31 * 2), 27, 1113510040);
  }

  /** Beyond shift 8 the multiplier is at least 133, too large beside the accumulator's bound. */
  lemma TooPrecise(s: nat)
    requires s > 8
    ensures !ShiftFits(7, 27, 65536 * 255, s)
  {
    Pow2Add(9, s - 9);
    assert Pow2(9) == 512;
    RoundEvenNear(7 * Pow2(s), 27);
  }
}
