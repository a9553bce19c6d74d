/** 32-bit machine words and C `int` values, and the conversions between them.
    A register holds a `Word`; a source-level value is an `Int32`. */
module Words {

  const TWO31: int := 0x8000_0000
  const TWO32: int := 0x1_0000_0000

  type Int32 = x: int | -0x8000_0000 <= x < 0x8000_0000
  type Word = x: int | 0 <= x < 0x1_0000_0000

  datatype Option<+T> = None | Some(value: T)

  /** The low 32 bits of an integer. */
  function U32(x: int): Word {
    x % TWO32
  }

  /** The low 32 bits of an integer, read as two's complement. */
  function S32(x: int): Int32 {
    var m := x % TWO32;
    if m >= TWO31 then m - TWO32 else m
  }

  function Pow2(n: nat): (p: nat)
    ensures p > 0
  {
    if n == 0 then 1 else 2 * Pow2(n - 1)
  }

  function Abs(x: int): nat {
    if x < 0 then -x else x
  }

  /** C division: the quotient is rounded towards zero. */
  function TruncDiv(a: int, b: int): int
    requires b != 0
  {
    var q := Abs(a) / Abs(b);
    if (a >= 0) == (b >= 0) then q else -q
  }

  /** C remainder: it takes the sign of the dividend. */
  function TruncMod(a: int, b: int): int
    requires b != 0
  {
    a - b * TruncDiv(a, b)
  }

  /** `x` is determined modulo `m` by any multiple of `m` added to it. */
  lemma ModShift(x: int, k: int, m: int)
    requires m > 0
    ensures (x + k * m) % m == x % m
  {
    var q := x / m;
    DivModUnique(x + k * m, m, q + k, x % m);
  }

  lemma DivModUnique(x: int, m: int, q: int, r: int)
    requires m > 0 && 0 <= r < m && x == q * m + r
    ensures x / m == q && x % m == r
  {
    var q', r' := x / m, x % m;
    assert x == q' * m + r';
    assert (q - q') * m == r' - r;
    if q > q' {
      MulLower(q - q', m);
    } else if q < q' {
      MulLower(q' - q, m);
    }
  }

  lemma MulLower(k: int, m: int)
    requires k >= 1 && m > 0
    ensures k * m >= m
  {
  }

  lemma Congruent(x: int, y: int, k: int)
    requires x == y + k * TWO32
    ensures U32(x) == U32(y) && S32(x) == S32(y)
  {
    ModShift(y, k, TWO32);
  }

  lemma U32Of(x: int)
    ensures U32(x) == x - (x / TWO32) * TWO32
    ensures U32(S32(x)) == U32(x)
    ensures S32(U32(x)) == S32(x)
  {
  }

  lemma SignedRange(v: Int32)
    ensures S32(v) == v
    ensures U32(v) == if v < 0 then v + TWO32 else v
  {
  }

  /** Sums and products only depend on the low words of their operands. */
  lemma WordAdd(a: int, b: int)
    ensures U32(U32(a) + U32(b)) == U32(a + b)
    ensures U32(U32(a) - U32(b)) == U32(a - b)
  {
    var ka, kb := a / TWO32, b / TWO32;
    Congruent(U32(a) + U32(b), a + b, -ka - kb);
    Congruent(U32(a) - U32(b), a - b, kb - ka);
  }

  lemma WordScale(a: int, p: int)
    ensures U32(U32(a) * p) == U32(a * p)
  {
    var k := a / TWO32;
    calc {
      U32(a) * p;
      (a - k * TWO32) * p;
      a * p + (-k * p) * TWO32;
    }
    Congruent(U32(a) * p, a * p, -k * p);
  }

  lemma WordMul(a: int, b: int)
    ensures U32(U32(a) * U32(b)) == U32(a * b)
  {
    WordScale(a, U32(b));
    WordScale(b, a);
    assert a * U32(b) == U32(b) * a && a * b == b * a;
  }

  lemma WordFma(a: int, b: int, c: int)
    ensures U32(U32(a) * U32(b) + U32(c)) == U32(a * b + c)
  {
    WordMul(a, b);
    WordAdd(U32(a) * U32(b), U32(c));
    WordAdd(a * b, c);
    U32Of(c);
  }
}
