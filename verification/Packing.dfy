/** Four int8 values in a word, and the packed dot product. */
module Packing {
  import opened Words
  import opened Isa

  predicate Int8(x: int) { -128 <= x <= 127 }

  predicate Int8s(xs: seq<int>) { forall i :: 0 <= i < |xs| ==> Int8(xs[i]) }

  /** Little-endian lanes. */
  function Pack4(v: seq<int>): Word
    requires |v| == 4
  {
    PackFields(v[0] % 256, v[1] % 256, v[2] % 256, v[3] % 256);
    v[0] % 256 + v[1] % 256 * 0x100 + v[2] % 256 * 0x1_0000 + v[3] % 256 * 0x100_0000
  }

  function Unpack4(word: int): seq<int> {
    [SignedByte(word), SignedByte(word / 0x100), SignedByte(word / 0x1_0000), SignedByte(word / 0x100_0000)]
  }

  lemma SignedByteRound(x: int, b: int)
    requires Int8(x) && b % 256 == x % 256
    ensures SignedByte(b) == x
  {
  }

  lemma PackFields(a: int, b: int, c: int, d: int)
    requires 0 <= a < 256 && 0 <= b < 256 && 0 <= c < 256 && 0 <= d < 256
    ensures var w := a + b * 0x100 + c * 0x1_0000 + d * 0x100_0000;
            0 <= w < TWO32 && w % 256 == a && w / 0x100 % 256 == b && w / 0x1_0000 % 256 == c && w / 0x100_0000 % 256 == d
  {
    var w := a + b * 0x100 + c * 0x1_0000 + d * 0x100_0000;
    DivModUnique(w, 0x100, b + c * 0x100 + d * 0x1_0000, a);
    FieldAt(w, 0x100, 256, c + d * 0x100, b, a);
    FieldAt(w, 0x1_0000, 256, d, c, a + b * 0x100);
    FieldAt(w, 0x100_0000, 256, 0, d, a + b * 0x100 + c * 0x1_0000);
  }

  /** Unpacking inverts packing on int8 lanes. */
  lemma UnpackPack(v: seq<int>)
    requires |v| == 4 && Int8s(v)
    ensures Unpack4(Pack4(v)) == v
  {
    var w := Pack4(v);
    PackFields(v[0] % 256, v[1] % 256, v[2] % 256, v[3] % 256);
    SignedByteRound(v[0], w);
    SignedByteRound(v[1], w / 0x100);
    SignedByteRound(v[2], w / 0x1_0000);
    SignedByteRound(v[3], w / 0x100_0000);
  }

  /** Packing inverts unpacking on words, so the two forms are in one-to-one correspondence. */
  lemma PackUnpack(w: Word)
    ensures Int8s(Unpack4(w)) && Pack4(Unpack4(w)) == w
  {
    SignedByteRange(w);
    SignedByteRange(w / 0x100);
    SignedByteRange(w / 0x1_0000);
    SignedByteRange(w / 0x100_0000);
    Carve(w);
    hide SignedByte;
  }

  lemma SignedByteRange(b: int)
    ensures Int8(SignedByte(b)) && SignedByte(b) % 256 == b % 256
  {
  }

  lemma Carve(w: Word)
    ensures 0 <= w / 0x100_0000 < 256
    ensures w == w % 256 + w / 0x100 % 256 * 0x100 + w / 0x1_0000 % 256 * 0x1_0000 + w / 0x100_0000 * 0x100_0000
  {
    var w1, w2, w3 := w / 0x100, w / 0x1_0000, w / 0x100_0000;
    DivModUnique(w, 0x1_0000, w1 / 256, w1 % 256 * 0x100 + w % 256);
    DivModUnique(w, 0x100_0000, w2 / 256, w2 % 256 * 0x1_0000 + w1 % 256 * 0x100 + w % 256);
  }

  /** The lanes of a packed word, lowest byte first, and the signed bytes an unpacked word gives, written as numbers. */
  lemma PackedBytes(v: seq<int>, w: Word)
    requires |v| == 4
    ensures var p := Pack4(v);
            p % 0x100 == v[0] % 256 && p / 0x100 % 0x100 == v[1] % 256 && p / 0x1_0000 % 0x100 == v[2] % 256 && p / 0x100_0000 == v[3] % 256
    ensures |Unpack4(w)| == 4
    ensures forall k :: 0 <= k < 4 ==>
              var b := (if k == 0 then w else if k == 1 then w / 0x100 else if k == 2 then w / 0x1_0000 else w / 0x100_0000) % 0x100;
              Unpack4(w)[k] == if b < 128 then b else b - 256
  {
    PackFields(v[0] % 256, v[1] % 256, v[2] % 256, v[3] % 256);
  }

  // ----- dot products -----

  function Dot(x: seq<int>, y: seq<int>): int
    requires |x| == |y|
  {
    if x == [] then 0 else Dot(x[..|x| - 1], y[..|y| - 1]) + x[|x| - 1] * y[|y| - 1]
  }

  lemma {:induction false} DotAppend(x: seq<int>, y: seq<int>, x': seq<int>, y': seq<int>)
    requires |x| == |y| && |x'| == |y'|
    ensures Dot(x + x', y + y') == Dot(x, y) + Dot(x', y')
    decreases |x'|
  {
    if x' == [] {
      assert x + x' == x && y + y' == y;
    } else {
      var n := |x'| - 1;
      assert (x + x')[..|x + x'| - 1] == x + x'[..n] && (y + y')[..|y + y'| - 1] == y + y'[..n];
      DotAppend(x, y, x'[..n], y'[..n]);
    }
  }

  lemma DotFour(x: seq<int>, y: seq<int>)
    requires |x| == |y| == 4
    ensures Dot(x, y) == x[0] * y[0] + x[1] * y[1] + x[2] * y[2] + x[3] * y[3]
  {
    assert x[..3][..2][..1][..0] == [];
    assert x[..3][..2] == x[..2] && x[..2][..1] == x[..1] && y[..3][..2] == y[..2] && y[..2][..1] == y[..1];
    assert Dot(x[..1], y[..1]) == x[0] * y[0];
    assert Dot(x[..2], y[..2]) == x[0] * y[0] + x[1] * y[1];
    assert Dot(x[..3], y[..3]) == x[0] * y[0] + x[1] * y[1] + x[2] * y[2];
  }

  /** The ALU's packed dot product adds the four lane products to the accumulator, modulo 2^32. */
  lemma Dot4OfPacked(x: seq<int>, y: seq<int>, acc: int)
    requires |x| == |y| == 4 && Int8s(x) && Int8s(y)
    ensures Isa.Dot4(Pack4(x), Pack4(y), U32(acc)) == U32(acc + Dot(x, y))
  {
    UnpackPack(x);
    UnpackPack(y);
    var p, q := Pack4(x), Pack4(y);
    assert Unpack4(p) == [ByteLane(p, 0), ByteLane(p, 1), ByteLane(p, 2), ByteLane(p, 3)];
    assert Unpack4(q) == [ByteLane(q, 0), ByteLane(q, 1), ByteLane(q, 2), ByteLane(q, 3)];
    DotFour(x, y);
    hide Pack4, Unpack4, ByteLane, Dot;
    WrappedSum(acc, Dot(x, y));
  }

  lemma WrappedSum(acc: int, d: int)
    ensures U32(S32(U32(acc)) + d) == U32(acc + d)
  {
    var k := acc / TWO32;
    var s := S32(U32(acc));
    if s == acc - k * TWO32 {
      Congruent(s + d, acc + d, -k);
    } else {
      Congruent(s + d, acc + d, -k - 1);
    }
  }

  /** Words of four taps each; nothing where the number of taps is not a multiple of four. */
  function PackWords(taps: seq<int>): seq<int>
    requires |taps| % 4 == 0
  {
    if taps == [] then [] else [Pack4(taps[..4])] + PackWords(taps[4..])
  }

  method PackChannel(taps: seq<int>, before: seq<int>) returns (words: seq<int>)
    requires |taps| % 4 == 0
    ensures words == before + PackWords(taps)
  {
    hide Pack4;
    words := before;
    var chunk := 0;
    assert taps[0..] == taps;
    while chunk < |taps|
      invariant 0 <= chunk <= |taps| && chunk % 4 == 0
      invariant words + PackWords(taps[chunk..]) == before + PackWords(taps)
      decreases |taps| - chunk
    {
      var word := Pack4(taps[chunk..chunk + 4]);
      assert taps[chunk..][..4] == taps[chunk..chunk + 4] && taps[chunk..][4..] == taps[chunk + 4..];
      assert words + ([word] + PackWords(taps[chunk + 4..])) == (words + [word]) + PackWords(taps[chunk + 4..]);
      words := words + [word];
      chunk := chunk + 4;
    }
    assert taps[chunk..] == [] && words + [] == words;
  }

  /** Channel after channel; an error for a channel whose taps do not fill whole words. */
  method Pack4Taps(tapsPerChannel: seq<seq<int>>) returns (ok: bool, words: seq<int>)
    ensures ok <==> forall c :: 0 <= c < |tapsPerChannel| ==> |tapsPerChannel[c]| % 4 == 0
    ensures ok ==> words == AllWords(tapsPerChannel)
  {
    words := [];
    for c := 0 to |tapsPerChannel|
      invariant forall d :: 0 <= d < c ==> |tapsPerChannel[d]| % 4 == 0
      invariant words == AllWords(tapsPerChannel[..c])
    {
      if |tapsPerChannel[c]| % 4 != 0 {
        return false, [];
      }
      words := PackChannel(tapsPerChannel[c], words);
      assert tapsPerChannel[..c + 1][..c] == tapsPerChannel[..c];
    }
    assert tapsPerChannel[..|tapsPerChannel|] == tapsPerChannel;
    ok := true;
  }

  /** The words of all channels, one after the other. */
  function AllWords(tapsPerChannel: seq<seq<int>>): seq<int>
    requires forall c :: 0 <= c < |tapsPerChannel| ==> |tapsPerChannel[c]| % 4 == 0
  {
    if tapsPerChannel == [] then []
    else AllWords(tapsPerChannel[..|tapsPerChannel| - 1]) + PackWords(tapsPerChannel[|tapsPerChannel| - 1])
  }

  /** The kernels' accumulation: one packed dot product per word. */
  function Chunked(x: seq<int>, y: seq<int>, acc: Word): Word
    requires |x| == |y| && |x| % 4 == 0
  {
    if x == [] then acc
    else
      Chunked(x[4..], y[4..], Isa.Dot4(Pack4(x[..4]), Pack4(y[..4]), acc))
  }

  /** Chunk by chunk, the packed accumulation is the flat sum of products, modulo 2^32. */
  lemma {:induction false} ChunkedIsFlat(x: seq<int>, y: seq<int>, acc: int)
    requires |x| == |y| && |x| % 4 == 0 && Int8s(x) && Int8s(y)
    ensures Chunked(x, y, U32(acc)) == U32(acc + Dot(x, y))
    decreases |x|
  {
    hide Isa.Dot4, Pack4, U32;
    if x != [] {
      Dot4OfPacked(x[..4], y[..4], acc);
      ChunkedIsFlat(x[4..], y[4..], acc + Dot(x[..4], y[..4]));
      DotAppend(x[..4], y[..4], x[4..], y[4..]);
      assert x[..4] + x[4..] == x && y[..4] + y[4..] == y;
    }
  }

  function UnpackAll(words: seq<int>): seq<int> {
    if words == [] then [] else Unpack4(words[0]) + UnpackAll(words[1..])
  }

  /** Unpacking all words gives the taps back. */
  lemma {:induction false} UnpackAllPacked(taps: seq<int>)
    requires |taps| % 4 == 0 && Int8s(taps)
    ensures UnpackAll(PackWords(taps)) == taps
    decreases |taps|
  {
    if taps != [] {
      UnpackPack(taps[..4]);
      UnpackAllPacked(taps[4..]);
      assert PackWords(taps)[1..] == PackWords(taps[4..]);
      assert taps[..4] + taps[4..] == taps;
    }
  }
}
