/** What the code generator emits for each piece of syntax, as a function. */
module Lowering {
  import opened Words
  import opened Isa
  import opened Lang
  import opened Sema

  const PARAM_BASE := 0x100
  const MAX_INSTRUCTIONS := 256

  // ----- constant folding -----

  /** The host's `int` arithmetic; its shifts take the amount modulo 32, its overflow wraps. */
  function FoldBinary(op: Operator, l: int, r: int): Option<Int32> {
    match op
    case Plus => Some(S32(l + r))
    case Minus => Some(S32(l - r))
    case Star => Some(S32(l * r))
    case Slash => if r == 0 then None else Some(S32(TruncDiv(l, r)))
    case Percent => if r == 0 then None else Some(S32(TruncMod(l, r)))
    case Sar => Some(S32(l / Pow2(r % 32)))
    case Shl => Some(S32(l * Pow2(r % 32)))
    case Amp => Some(S32(BitAnd(U32(l), U32(r))))
    case Pipe => Some(S32(BitOr(U32(l), U32(r))))
    case Caret => Some(S32(BitXor(U32(l), U32(r))))
    case _ => None
  }

  /** The compile-time value of an expression all of whose leaves are literals. */
  function Fold(e: Expr): Option<Int32> {
    match e
    case Lit(v) => Some(v)
    case Op(op, args) =>
      if |args| != Arity(op) || IsBuiltin(op) then None
      else
        var l := Fold(args[0]);
        if l.None? then None
        else if op.Neg? then Some(S32(-(l.value as int)))
        else if op.Tilde? then Some(S32(-(l.value as int) - 1))
        else
          var r := Fold(args[1]);
          if r.None? then None else FoldBinary(op, l.value, r.value)
    case _ => None
  }

  /** Folding is used only for operator nodes whose value a CONST can hold. */
  predicate Folds(e: Expr) {
    e.Op? && Fold(e).Some? && 0 <= Fold(e).value <= 0xFFFF
  }

  // ----- expressions -----

  function Mov(dst: int, src: int): seq<Instr> {
    if dst == src then [] else [Alu(OP_ADD, dst, src, 0, 0)]
  }

  /** Moves into consecutive registers from `dst` on. */
  function Movs(dst: int, src: seq<int>): seq<Instr> {
    if src == [] then [] else Movs(dst, src[..|src| - 1]) + Mov(dst + |src| - 1, src[|src| - 1])
  }

  function OpcodeFor(op: Operator): int {
    match op
    case Plus => OP_ADD
    case Minus => OP_SUB
    case Star => OP_IMUL
    case Slash => OP_DIV
    case Percent => OP_MOD
    case Sar => OP_SAR
    case Shl => OP_SHL
    case Amp => OP_AND
    case Pipe => OP_OR
    case Caret => OP_XOR
    case Neg => OP_SUB
    case Tilde => OP_NOT
    case Fma => OP_FMA
    case DotProd => OP_DOT4
    case Exp8Of => OP_EXP8
    case Relu => OP_RELU
    case Clamp => OP_CLAMP
    case _ => -1
  }

  /** Negation subtracts from R0; every other operator takes its operands in order, R0 filling the rest. */
  function AluInstr(op: Operator, rd: int, r: seq<int>): Instr
    requires |r| == Arity(op)
  {
    if op.Neg? then Alu(OP_SUB, rd, 0, r[0], 0)
    else Alu(OpcodeFor(op), rd, r[0], if |r| > 1 then r[1] else 0, if |r| > 2 then r[2] else 0)
  }

  /** Code, the register the value ends up in, and the next free temporary; or a compile-time error. */
  datatype Lowered = Bad | Good(code: seq<Instr>, reg: int, next: int)

  datatype LoweredAll = BadAll | GoodAll(code: seq<Instr>, regs: seq<int>, next: int)

  function LowerExpr(tab: seq<Binding>, e: Expr, t: int): Lowered
    decreases e, 1
  {
    match e
    case Lit(v) => if t >= TMP_ONE then Bad else Good([Const(t, v % 0x1_0000)], t, t + 1)
    case Var(x) => if Lookup(tab, x) < 0 then Bad else Good([], Lookup(tab, x), t)
    case ThreadIdx => Good([], 29, t)
    case BlockIdx => Good([], 30, t)
    case BlockDim => Good([], 31, t)
    case Op(op, args) =>
      if t >= TMP_ONE then Bad
      else if Folds(e) then Good([Const(t, Fold(e).value)], t, t + 1)
      else
        (match LowerAll(tab, args, t)
         case BadAll => Bad
         case GoodAll(code, regs, _) =>
           if |regs| != Arity(op) || IsComparison(op) then Bad
           else Good(code + [AluInstr(op, t, regs)], t, t + 1))
    case MemLoad(a) =>
      (match LowerExpr(tab, a, t)
       case Bad => Bad
       case Good(code, reg, next) =>
         if next >= TMP_ONE then Bad else Good(code + [Ldr(next, reg, 0)], next, next + 1))
    case CallF(f, args) =>
      (match LowerAll(tab, args, t)
       case BadAll => Bad
       case GoodAll(code, regs, _) =>
         if t >= TMP_ONE then Bad
         else Good(code + Movs(FUNC_REG_BASE, regs) + [CallTo(f)] + Mov(t, FUNC_REG_RET), t, t + 1))
  }

  /** Expressions one after the other, each keeping its temporaries. */
  function LowerAll(tab: seq<Binding>, es: seq<Expr>, t: int): (r: LoweredAll)
    ensures r.GoodAll? ==> |r.regs| == |es|
    decreases es, 0
  {
    if es == [] then GoodAll([], [], t)
    else
      match LowerExpr(tab, es[0], t)
      case Bad => BadAll
      case Good(code, reg, next) =>
        match LowerAll(tab, es[1..], next)
        case BadAll => BadAll
        case GoodAll(code', regs, next') => GoodAll(code + code', [reg] + regs, next')
  }

  /** An operand that stays in a register no call touches. */
  predicate Steady(e: Expr) {
    e.Var? || e.ThreadIdx? || e.BlockIdx? || e.BlockDim?
  }

  /** The temporaries still held when the code of an expression has run. A load keeps those of its address. */
  function Held(e: Expr): nat {
    match e
    case MemLoad(a) => Held(a) + 1
    case _ => if Steady(e) then 0 else 1
  }

  lemma LowerShape(tab: seq<Binding>, e: Expr, t: int)
    requires TMP_BASE <= t <= TMP_ONE && LowerExpr(tab, e, t).Good?
    ensures var g := LowerExpr(tab, e, t);
            g.next == t + Held(e) <= TMP_ONE
            && (Steady(e) ==> g.code == [] && g.next == t && (if e.Var? then g.reg == Lookup(tab, e.name) else 29 <= g.reg <= 31))
            && (!Steady(e) ==> t <= g.reg == g.next - 1)
    decreases e
  {
    match e
    case MemLoad(a) => LowerShape(tab, a, t);
    case _ =>
  }

  lemma {:induction false} LowerAllShape(tab: seq<Binding>, es: seq<Expr>, t: int)
    requires TMP_BASE <= t <= TMP_ONE && LowerAll(tab, es, t).GoodAll?
    ensures var g := LowerAll(tab, es, t); |g.regs| == |es| && t <= g.next <= TMP_ONE
    decreases |es|
  {
    if es != [] {
      LowerShape(tab, es[0], t);
      LowerAllShape(tab, es[1..], LowerExpr(tab, es[0], t).next);
    }
  }

  /** The operands of a store, one after the other. */
  lemma PairLowering(tab: seq<Binding>, a: Expr, b: Expr, t: int)
    ensures var g := LowerExpr(tab, a, t);
            var h := if g.Bad? then Bad else LowerExpr(tab, b, g.next);
            LowerAll(tab, [a, b], t) == if h.Bad? then BadAll else GoodAll(g.code + h.code, [g.reg, h.reg], h.next)
  {
    hide LowerExpr;
    var es := [a, b];
    var rest := es[1..];
    assert rest == [b] && rest[1..] == [];
    var g := LowerExpr(tab, a, t);
    if g.Good? {
      var h := LowerExpr(tab, b, g.next);
      if h.Good? {
        assert LowerAll(tab, rest[1..], h.next) == GoodAll([], [], h.next);
        assert h.code + [] == h.code && [h.reg] + [] == [h.reg];
        assert LowerAll(tab, rest, g.next) == GoodAll(h.code, [h.reg], h.next);
      }
    }
  }

  // ----- statements -----

  function NzpForOp(op: Operator): int {
    match op
    case Gt => NZP_P
    case Lt => NZP_N
    case Geq => NZP_ZP
    case Leq => NZP_NZ
    case EqEq => NZP_Z
    case Neq => NZP_NP
    case _ => NZP_ALL
  }

  /** Comparison and branch, the else body, a skip over the then body, a landing pad, the then body. */
  function IfCode(test: seq<Instr>, op: Operator, l: int, r: int, els: seq<Instr>, thn: seq<Instr>): seq<Instr> {
    test + [Cmp(l, r), Brnzp(NzpForOp(op), 2 + |els|)] + els + [Brnzp(NZP_ALL, 2 + |thn|), Nop] + thn + [Sync]
  }

  /** The loop from its test on; `test` computes the bound into `b`. */
  function LoopCode(test: seq<Instr>, v: int, b: int, body: seq<Instr>): seq<Instr> {
    test + [Cmp(v, b), Brnzp(NZP_ZP, |body| + 3)] + body
    + [Alu(OP_ADD, v, v, TMP_ONE, 0), Brnzp(NZP_ALL, -(|test| + |body| + 3))]
  }

  function LowerStmt(tab: seq<Binding>, s: Stmt): Option<seq<Instr>>
    decreases s, 1
  {
    match s
    case Decl(x, e) => LowerSet(tab, x, e)
    case Assign(x, e) => LowerSet(tab, x, e)
    case Store(addr, val) =>
      (match LowerAll(tab, [val, addr], TMP_BASE)
       case BadAll => None
       case GoodAll(code, regs, _) => if |regs| != 2 then None else Some(code + [Str(regs[0], regs[1], 0)]))
    case If(cond, thn, els) =>
      if !cond.Op? then None
      else
        (match LowerAll(tab, cond.args, TMP_BASE)
         case BadAll => None
         case GoodAll(code, regs, _) =>
           if |regs| != 2 then None
           else
             var e, t := LowerBlock(tab, els), LowerBlock(tab, thn);
             if e.None? || t.None? then None
             else Some(IfCode(code, cond.op, regs[0], regs[1], e.value, t.value)))
    case For(x, init, bound, body) =>
      var i, b, k := LowerSet(tab, x, init), LowerExpr(tab, bound, TMP_BASE), LowerBlock(tab, body);
      if i.None? || b.Bad? || k.None? then None
      else Some(i.value + [Const(TMP_ONE, 1)] + LoopCode(b.code, Lookup(tab, x), b.reg, k.value))
    case Return(None) => Some([Ret])
    case Return(Some(e)) =>
      match LowerExpr(tab, e, TMP_BASE)
      case Bad => None
      case Good(code, reg, _) => Some(code + Mov(FUNC_REG_RET, reg) + [Sret])
  }

  function LowerSet(tab: seq<Binding>, x: string, e: Expr): Option<seq<Instr>> {
    match LowerExpr(tab, e, TMP_BASE)
    case Bad => None
    case Good(code, reg, _) => Some(code + Mov(Lookup(tab, x), reg))
  }

  function LowerBlock(tab: seq<Binding>, b: Block): Option<seq<Instr>>
    decreases b, 0
  {
    match b
    case End => Some([])
    case Seq(s, rest) =>
      var c, k := LowerStmt(tab, s), LowerBlock(tab, rest);
      if c.None? || k.None? then None else Some(c.value + k.value)
  }

  // ----- whole programs -----

  function LoadParams(tab: seq<Binding>, params: seq<string>, i: nat): seq<Instr>
    requires i <= |params|
    decreases |params| - i
  {
    if i == |params| then []
    else [Ldr(Lookup(tab, params[i]), 0, PARAM_BASE + i)] + LoadParams(tab, params, i + 1)
  }

  /** The kernel ends in RET: one is added unless its last instruction already is one. */
  function CloseKernel(code: seq<Instr>): seq<Instr> {
    if code == [] || !code[|code| - 1].Ret? then code + [Ret] else code
  }

  function LowerKernel(tab: seq<Binding>, k: Func): Option<seq<Instr>> {
    var b := LowerBlock(tab, k.body);
    if b.None? then None else Some(CloseKernel(LoadParams(tab, k.params, 0) + b.value))
  }

  /** The func bodies one after the other, with the position of each, from position `at` on. */
  function LowerFuncs(tabs: seq<seq<Binding>>, fs: seq<Func>, at: nat): (r: Option<(seq<Instr>, seq<nat>)>)
    requires |tabs| == |fs|
    ensures r.Some? ==> |r.value.1| == |fs|
  {
    if fs == [] then Some(([], []))
    else
      var b := LowerBlock(tabs[0], fs[0].body);
      if b.None? then None
      else
        var r := LowerFuncs(tabs[1..], fs[1..], at + |b.value|);
        if r.None? then None else Some((b.value + r.value.0, [at] + r.value.1))
  }

  /** Calls resolved against the start positions of the funcs; `at` is where `code` begins. */
  function LinkInstr(fs: seq<Func>, starts: seq<nat>, i: Instr, at: int): Instr {
    if i.CallTo? && FindFunc(fs, i.name) < |starts| then Call(starts[FindFunc(fs, i.name)] - at) else i
  }

  function Link(fs: seq<Func>, starts: seq<nat>, code: seq<Instr>, at: int): (p: seq<Instr>)
    ensures |p| == |code|
    ensures forall k :: 0 <= k < |code| ==> p[k] == LinkInstr(fs, starts, code[k], at + k)
  {
    seq(|code|, k requires 0 <= k < |code| => LinkInstr(fs, starts, code[k], at + k))
  }

  /** The whole program, calls still unresolved, and the start of each func. */
  function LowerProgram(ktab: seq<Binding>, ftabs: seq<seq<Binding>>, p: Program): Option<(seq<Instr>, seq<nat>)>
    requires p.kernels != [] && |ftabs| == |p.funcs|
  {
    var k := LowerKernel(ktab, p.kernels[0]);
    if k.None? then None
    else
      var f := LowerFuncs(ftabs, p.funcs, |k.value|);
      if f.None? then None else Some((k.value + f.value.0, f.value.1))
  }

  function EncodeAll(code: seq<Instr>): (words: seq<int>)
    ensures |words| == |code| && forall k :: 0 <= k < |code| ==> words[k] == Encode(code[k])
  {
    seq(|code|, k requires 0 <= k < |code| => Encode(code[k]))
  }

  /** The words of the first kernel and of all funcs, or None where the compiler gives up. */
  function Compile(p: Program): Option<seq<int>> {
    if p.kernels == [] then None
    else
      match Check(p)
      case None => None
      case Some((ktabs, ftabs)) =>
        match LowerProgram(ktabs[0], ftabs, p)
        case None => None
        case Some((code, starts)) =>
          if |code| > MAX_INSTRUCTIONS then None else Some(EncodeAll(Link(p.funcs, starts, code, 0)))
  }
}
