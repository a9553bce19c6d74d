/** Which operators have a value where, which expressions are folded, and to what. */
module Folding {
  import opened Words
  import opened Isa
  import opened Lang
  import opened Sema
  import opened Lowering

  // ----- where an operator has a value -----

  /** What C says of an operator on `int` operands, on top of which sums, differences, products and left shifts wrap; it
      leaves zero divisors and shift amounts outside 0 to 31 open. */
  function Meaning(op: Operator, a: int, b: int): Option<int> {
    match op
    case Slash => if b == 0 then None else Some(TruncDiv(a, b))
    case Percent => if b == 0 then None else Some(TruncMod(a, b))
    case Sar => if 0 <= b <= 31 then Some(a / Pow2(b)) else None
    case Shl => if 0 <= b <= 31 then Some(a * Pow2(b)) else None
    case Plus => Some(a + b)
    case Minus => Some(a - b)
    case Star => Some(a * b)
    case _ => None
  }

  /** The arithmetic operators have a value in the model exactly where C gives one and the machine's unsigned division comes
      to it, and then that one, cut to a word. */
  lemma DefinedExactly(op: Operator, a: Int32, b: Int32)
    requires op in {Plus, Minus, Star, Slash, Percent, Sar, Shl}
    ensures var m := Meaning(op, a, b);
            Apply(op, [a, b]).Some? <==>
              m.Some? && (op in {Slash, Percent} ==> AluResult(if op.Slash? then 4 else 5, U32(a), U32(b), 0) == U32(m.value))
    ensures Apply(op, [a, b]).Some? ==> Apply(op, [a, b]).value == S32(Meaning(op, a, b).value)
  {
    if b != 0 && op.Slash? {
      hide TruncDiv;
      DivAgreesIff(a, b);
    } else if b != 0 && op.Percent? {
      hide TruncMod;
      ModAgreesIff(a, b);
    }
  }

  // ----- what is folded -----

  /** Trees of literals under arithmetic operators, with no division by a part that is known to be zero. */
  predicate Foldable(e: Expr)
    decreases e
  {
    match e
    case Lit(_) => true
    case Op(op, args) =>
      if op in {Neg, Tilde} then |args| == 1 && Foldable(args[0])
      else
        && op in {Plus, Minus, Star, Slash, Percent, Sar, Shl, Amp, Pipe, Caret}
        && |args| == 2 && Foldable(args[0]) && Foldable(args[1])
        && (op in {Slash, Percent} ==> Fold(args[1]) != Some(0))
    case _ => false
  }

  lemma {:induction false} FoldsExactly(e: Expr)
    ensures Fold(e).Some? <==> Foldable(e)
    decreases e
  {
    if e.Op? && |e.args| == Arity(e.op) && !IsBuiltin(e.op) {
      FoldsExactly(e.args[0]);
      if !IsUnary(e.op) {
        FoldsExactly(e.args[1]);
      }
    }
  }

  /** An operator node becomes a single constant just if it is foldable to a value of 16 bits, and then that value. */
  lemma OneConstant(tab: seq<Binding>, e: Expr, t: int)
    requires e.Op? && LowerExpr(tab, e, t).Good?
    ensures var code, v := LowerExpr(tab, e, t).code, Fold(e);
            && (Foldable(e) && v.Some? && 0 <= v.value <= 0xFFFF <==> |code| == 1 && code[0].Const?)
            && (Foldable(e) && v.Some? && 0 <= v.value <= 0xFFFF ==> code == [Const(t, v.value)])
  {
    hide Foldable, Fold;
    FoldsExactly(e);
  }
}
