/** The instruction chosen for an operator computes, on words, what the operator means on C values. */
module Operators {
  import opened Words
  import opened Isa
  import opened Lang
  import opened Lowering

  predicate Flag(nzp: int) { nzp == NZP_N || nzp == NZP_Z || nzp == NZP_P }

  /** The operand words in the order the instruction reads them. */
  function OperandWord(op: Operator, v: seq<Int32>, k: int): Word
    requires |v| == Arity(op) && 0 <= k < 3
  {
    if op.Neg? then (if k == 1 then U32(v[0]) else 0) else if k < |v| then U32(v[k]) else 0
  }

  ghost predicate Computes(op: Operator, v: seq<Int32>, opcode: int)
    requires |v| == Arity(op)
  {
    Apply(op, v).Some? ==>
      AluResult(opcode, OperandWord(op, v, 0), OperandWord(op, v, 1), OperandWord(op, v, 2)) == U32(Apply(op, v).value)
  }

  // The ALU on the words of C values, operator by operator.

  lemma PlusCorrect(v: seq<Int32>)
    requires |v| == 2
    ensures Computes(Plus, v, OP_ADD)
  {
    var a: int, b: int := v[0], v[1];
    WordAdd(a, b);
    U32Of(a + b);
  }

  lemma MinusCorrect(v: seq<Int32>)
    requires |v| == 2
    ensures Computes(Minus, v, OP_SUB)
  {
    var a: int, b: int := v[0], v[1];
    WordAdd(a, b);
    U32Of(a - b);
  }

  lemma StarCorrect(v: seq<Int32>)
    requires |v| == 2
    ensures Computes(Star, v, OP_IMUL)
  {
    var a: int, b: int := v[0], v[1];
    SignedRange(v[0]);
    SignedRange(v[1]);
    U32Of(a);
    U32Of(b);
    U32Of(a * b);
  }

  lemma SlashCorrect(v: seq<Int32>)
    requires |v| == 2
    ensures Computes(Slash, v, OP_DIV)
  {
    if Apply(Slash, v).Some? {
      var a: int, b: int := v[0], v[1];
      DivAgreesIff(v[0], v[1]);
      U32Of(TruncDiv(a, b));
    }
  }

  lemma PercentCorrect(v: seq<Int32>)
    requires |v| == 2
    ensures Computes(Percent, v, OP_MOD)
  {
    if Apply(Percent, v).Some? {
      var a: int, b: int := v[0], v[1];
      ModAgreesIff(v[0], v[1]);
      U32Of(TruncMod(a, b));
    }
  }

  lemma SarCorrect(v: seq<Int32>)
    requires |v| == 2
    ensures Computes(Sar, v, OP_SAR)
  {
    if Apply(Sar, v).Some? {
      var a: int, b: int := v[0], v[1];
      SignedRange(v[0]);
      SignedRange(v[1]);
      U32Of(a);
      U32Of(a / Pow2(b));
    }
  }

  lemma ShlCorrect(v: seq<Int32>)
    requires |v| == 2
    ensures Computes(Shl, v, OP_SHL)
  {
    if Apply(Shl, v).Some? {
      var a: int, b: int := v[0], v[1];
      SignedRange(v[1]);
      WordScale(a, Pow2(b));
      U32Of(a * Pow2(b));
    }
  }

  lemma NegCorrect(v: seq<Int32>)
    requires |v| == 1
    ensures Computes(Neg, v, OP_SUB)
  {
    var a: int := v[0];
    WordAdd(0, a);
    U32Of(-a);
  }

  lemma TildeCorrect(v: seq<Int32>)
    requires |v| == 1
    ensures Computes(Tilde, v, OP_NOT)
  {
    var a: int := v[0];
    SignedRange(v[0]);
    U32Of(-a - 1);
    WordOf(-a - 1);
  }

  lemma FmaCorrect(v: seq<Int32>)
    requires |v| == 3
    ensures Computes(Fma, v, OP_FMA)
  {
    var a: int, b: int, c: int := v[0], v[1], v[2];
    WordFma(a, b, c);
    U32Of(a * b + c);
  }

  lemma ReluCorrect(v: seq<Int32>)
    requires |v| == 1
    ensures Computes(Relu, v, OP_RELU)
  {
    SignedRange(v[0]);
    U32Of(v[0]);
  }

  lemma ClampCorrect(v: seq<Int32>)
    requires |v| == 1
    ensures Computes(Clamp, v, OP_CLAMP)
  {
    SignedRange(v[0]);
    U32Of(v[0]);
  }

  lemma AmpCorrect(v: seq<Int32>)
    requires |v| == 2
    ensures Computes(Amp, v, OP_AND)
  {
    hide BitAnd;
    U32Of(BitAnd(U32(v[0]), U32(v[1])));
  }

  lemma PipeCorrect(v: seq<Int32>)
    requires |v| == 2
    ensures Computes(Pipe, v, OP_OR)
  {
    hide BitOr;
    U32Of(BitOr(U32(v[0]), U32(v[1])));
  }

  lemma CaretCorrect(v: seq<Int32>)
    requires |v| == 2
    ensures Computes(Caret, v, OP_XOR)
  {
    hide BitXor;
    U32Of(BitXor(U32(v[0]), U32(v[1])));
  }

  lemma DotProdCorrect(v: seq<Int32>)
    requires |v| == 2
    ensures Computes(DotProd, v, OP_DOT4)
  {
    hide Dot4;
    U32Of(Dot4(U32(v[0]), U32(v[1]), 0));
  }

  lemma Exp8OfCorrect(v: seq<Int32>)
    requires |v| == 1
    ensures Computes(Exp8Of, v, OP_EXP8)
  {
    hide Exp8;
    U32Of(Exp8(U32(v[0])));
  }

  lemma BinaryCorrect(op: Operator, v: seq<Int32>)
    requires |v| == Arity(op) == 2
    ensures Computes(op, v, OpcodeFor(op))
  {
    match op
    case Plus => PlusCorrect(v);
    case Minus => MinusCorrect(v);
    case Star => StarCorrect(v);
    case Slash => SlashCorrect(v);
    case Percent => PercentCorrect(v);
    case Sar => SarCorrect(v);
    case Shl => ShlCorrect(v);
    case Amp => AmpCorrect(v);
    case Pipe => PipeCorrect(v);
    case Caret => CaretCorrect(v);
    case DotProd => DotProdCorrect(v);
    case _ =>
  }

  /** The opcode chosen for an operator computes the word of its C value. */
  lemma AluCorrect(op: Operator, v: seq<Int32>)
    requires |v| == Arity(op)
    ensures Computes(op, v, OpcodeFor(op))
  {
    match op
    case Neg => NegCorrect(v);
    case Tilde => TildeCorrect(v);
    case Fma => FmaCorrect(v);
    case Relu => ReluCorrect(v);
    case Clamp => ClampCorrect(v);
    case Exp8Of => Exp8OfCorrect(v);
    case _ => BinaryCorrect(op, v);
  }

  lemma CompareCorrect(op: Operator, a: Int32, b: Int32)
    ensures Flag(CompareNzp(U32(a), U32(b)))
    ensures NzpMatch(CompareNzp(U32(a), U32(b)), NzpForOp(op)) <==> Compare(op, a, b)
    ensures NzpMatch(CompareNzp(U32(a), U32(b)), NZP_ZP) <==> a >= b
  {
    SignedRange(a);
    SignedRange(b);
  }
}
