/** The source language: syntax, and what a program means in terms of C `int` values. */
module Lang {
  import opened Words
  import opened Isa

  // The arithmetic, comparison, unary and builtin operators of the language.
  datatype Operator =
    | Plus | Minus | Star | Slash | Percent | Sar | Shl | Amp | Pipe | Caret
    | Lt | Gt | Leq | Geq | EqEq | Neq
    | Neg | Tilde
    | Fma | DotProd | Exp8Of | Relu | Clamp

  predicate IsComparison(op: Operator) {
    op.Lt? || op.Gt? || op.Leq? || op.Geq? || op.EqEq? || op.Neq?
  }

  predicate IsUnary(op: Operator) {
    op.Neg? || op.Tilde?
  }

  predicate IsBuiltin(op: Operator) {
    op.Fma? || op.DotProd? || op.Exp8Of? || op.Relu? || op.Clamp?
  }

  function Arity(op: Operator): nat {
    if op.Fma? then 3 else if IsUnary(op) || op.Exp8Of? || op.Relu? || op.Clamp? then 1 else 2
  }

  /** An operator applied to its operands is one kind of node here; the operators keep their own names. */
  datatype Expr =
    | Lit(v: Int32)
    | Var(name: string)
    | ThreadIdx | BlockIdx | BlockDim
    | Op(op: Operator, args: seq<Expr>)
    | MemLoad(addr: Expr)
    | CallF(name: string, args: seq<Expr>)

  datatype Stmt =
    | Decl(name: string, init: Expr)
    | Assign(name: string, val: Expr)
    | Store(addr: Expr, val: Expr)
    | If(cond: Expr, thn: Block, els: Block)
    | For(v: string, init: Expr, bound: Expr, body: Block)
    | Return(ret: Option<Expr>)

  /** The linked statement list of the AST. */
  datatype Block = End | Seq(head: Stmt, tail: Block)

  datatype Func = Func(name: string, params: seq<string>, body: Block)

  datatype Program = Program(kernels: seq<Func>, funcs: seq<Func>)

  /** The first function of that name, or the number of functions. */
  function FindFunc(fs: seq<Func>, name: string): (i: nat)
    ensures i <= |fs|
    ensures i < |fs| ==> fs[i].name == name
  {
    if fs == [] then 0 else if fs[0].name == name then 0 else 1 + FindFunc(fs[1..], name)
  }

  /** The search both the checker and the generator run over the declared funcs. */
  method IndexOfFunc(fs: seq<Func>, name: string) returns (r: nat)
    ensures r == FindFunc(fs, name)
  {
    for i := 0 to |fs|
      invariant FindFunc(fs, name) == i + FindFunc(fs[i..], name)
    {
      if fs[i].name == name {
        return i;
      }
      assert fs[i..][1..] == fs[i + 1..];
    }
    return |fs|;
  }

  // ----- operators on C int values -----

  /** When dividing the two words as unsigned numbers gives the quotient C promises; see DivAgreesIff. */
  predicate DivSafe(a: int, b: int) {
    || (a >= 0 && b > 0)
    || (a >= 0 && b < 0 && a < -b)
    || (a < 0 && (b == 1 || b == a))
  }

  /** When the unsigned remainder of the two words is the remainder C promises; see ModAgreesIff. */
  predicate ModSafe(a: int, b: int) {
    || (a >= 0 && b > 0)
    || (a >= 0 && b < 0 && a < -b)
    || (a < 0 && b > 0 && a % b == 0 && TWO32 % b == 0)
    || (a < 0 && a == b)
  }

  /** The value of an operator in C with wrapping `int`, or None where the language leaves it open. */
  function Apply(op: Operator, v: seq<Int32>): Option<Int32>
    requires |v| == Arity(op)
  {
    var a: int := v[0];
    var b: int := if |v| > 1 then v[1] else 0;
    var c: int := if |v| > 2 then v[2] else 0;
    match op
    case Plus => Some(S32(a + b))
    case Minus => Some(S32(a - b))
    case Star => Some(S32(a * b))
    case Slash => if DivSafe(a, b) then Some(S32(TruncDiv(a, b))) else None
    case Percent => if ModSafe(a, b) then Some(S32(TruncMod(a, b))) else None
    case Sar => if 0 <= b < 32 then Some(S32(a / Pow2(b))) else None
    case Shl => if 0 <= b < 32 then Some(S32(a * Pow2(b))) else None
    case Amp => Some(S32(BitAnd(U32(a), U32(b))))
    case Pipe => Some(S32(BitOr(U32(a), U32(b))))
    case Caret => Some(S32(BitXor(U32(a), U32(b))))
    case Neg => Some(S32(-a))
    case Tilde => Some(S32(-a - 1))
    case Fma => Some(S32(a * b + c))
    case DotProd => Some(S32(Dot4(U32(a), U32(b), 0)))
    case Exp8Of => Some(S32(Exp8(U32(a))))
    case Relu => Some(if a < 0 then 0 else a)
    case Clamp => Some(if a > 127 then 127 else if a < -128 then -128 else a)
    case _ => None
  }

  predicate Compare(op: Operator, a: Int32, b: Int32) {
    match op
    case Lt => a < b
    case Gt => a > b
    case Leq => a <= b
    case Geq => a >= b
    case EqEq => a == b
    case Neq => a != b
    case _ => true
  }

  // ----- meaning -----

  type Env = map<string, Int32>

  datatype Value = Val(v: Int32, mem: Memory) | NoValue | OutOfFuel

  datatype Values = Vals(vs: seq<Int32>, mem: Memory) | NoValues | NoFuel

  /** How a statement ends. `Stuck` covers everything the language leaves undefined. */
  datatype Outcome =
    | Normal(env: Env, mem: Memory)
    | Exit(env: Env, mem: Memory)
    | Result(v: Int32, mem: Memory)
    | Timeout
    | Stuck

  function Bind(params: seq<string>, vs: seq<Int32>): (env: Env)
    requires |params| == |vs|
    ensures forall x :: x in env ==> x in params
  {
    if params == [] then map[]
    else Bind(params[..|params| - 1], vs[..|params| - 1])[params[|params| - 1] := vs[|params| - 1]]
  }

  /** `depth` is 1 in a kernel and 0 in a func, which may not call. `fuel` bounds the turns of each loop. */
  function Eval(depth: nat, fs: seq<Func>, ids: Ids, e: Expr, env: Env, mem: Memory, fuel: nat): Value
    decreases depth, fuel, e, 1
  {
    match e
    case Lit(v) => Val(v, mem)
    case Var(x) => if x in env then Val(env[x], mem) else NoValue
    case ThreadIdx => Val(S32(ids.tid), mem)
    case BlockIdx => Val(S32(ids.bid), mem)
    case BlockDim => Val(S32(ids.bdim), mem)
    case Op(op, args) =>
      (match EvalAll(depth, fs, ids, args, env, mem, fuel)
       case Vals(vs, m) =>
         if |vs| != Arity(op) then NoValue
         else (match Apply(op, vs) case Some(v) => Val(v, m) case None => NoValue)
       case NoValues => NoValue
       case NoFuel => OutOfFuel)
    case MemLoad(a) =>
      (match Eval(depth, fs, ids, a, env, mem, fuel)
       case Val(v, m) => Val(S32(Load(m, U32(v))), m)
       case r => r)
    case CallF(f, args) =>
      var k := FindFunc(fs, f);
      if depth == 0 || k == |fs| then NoValue
      else
        (match EvalAll(depth, fs, ids, args, env, mem, fuel)
         case Vals(vs, m) =>
           if |vs| != |fs[k].params| then NoValue
           else
             (match RunBlock(depth - 1, fs, ids, fs[k].body, Bind(fs[k].params, vs), m, fuel)
              case Result(v, m') => Val(v, m')
              case Timeout => OutOfFuel
              case _ => NoValue)
         case NoValues => NoValue
         case NoFuel => OutOfFuel)
  }

  /** Operands are evaluated from left to right; only calls change memory. */
  function EvalAll(depth: nat, fs: seq<Func>, ids: Ids, es: seq<Expr>, env: Env, mem: Memory, fuel: nat): (r: Values)
    ensures r.Vals? ==> |r.vs| == |es|
    decreases depth, fuel, es, 0
  {
    if es == [] then Vals([], mem)
    else
      match Eval(depth, fs, ids, es[0], env, mem, fuel)
      case Val(v, m) =>
        (match EvalAll(depth, fs, ids, es[1..], env, m, fuel)
         case Vals(vs, m') => Vals([v] + vs, m')
         case r => r)
      case NoValue => NoValues
      case OutOfFuel => NoFuel
  }

  function RunBlock(depth: nat, fs: seq<Func>, ids: Ids, b: Block, env: Env, mem: Memory, fuel: nat): Outcome
    decreases depth, fuel, b, 0
  {
    match b
    case End => Normal(env, mem)
    case Seq(s, rest) =>
      match RunStmt(depth, fs, ids, s, env, mem, fuel)
      case Normal(env', m) => RunBlock(depth, fs, ids, rest, env', m, fuel)
      case r => r
  }

  function RunStmt(depth: nat, fs: seq<Func>, ids: Ids, s: Stmt, env: Env, mem: Memory, fuel: nat): Outcome
    decreases depth, fuel, s, 1
  {
    match s
    case Decl(x, e) => SetVar(x, Eval(depth, fs, ids, e, env, mem, fuel), env)
    case Assign(x, e) => SetVar(x, Eval(depth, fs, ids, e, env, mem, fuel), env)
    case Store(addr, val) =>
      (match Eval(depth, fs, ids, val, env, mem, fuel)
       case Val(v, m) =>
         (match Eval(depth, fs, ids, addr, env, m, fuel)
          case Val(a, m') => Normal(env, m'[U32(a) := U32(v)])
          case NoValue => Stuck
          case OutOfFuel => Timeout)
       case NoValue => Stuck
       case OutOfFuel => Timeout)
    case If(cond, thn, els) =>
      if !(cond.Op? && |cond.args| == 2) then Stuck
      else
        (match EvalAll(depth, fs, ids, cond.args, env, mem, fuel)
         case Vals(vs, m) =>
           RunBlock(depth, fs, ids, if Compare(cond.op, vs[0], vs[1]) then thn else els, env, m, fuel)
         case NoValues => Stuck
         case NoFuel => Timeout)
    case For(x, init, _, _) =>
      (match SetVar(x, Eval(depth, fs, ids, init, env, mem, fuel), env)
       case Normal(env', m) => RunLoop(depth, fs, ids, s, env', m, fuel)
       case r => r)
    case Return(None) => Exit(env, mem)
    case Return(Some(e)) =>
      match Eval(depth, fs, ids, e, env, mem, fuel)
      case Val(v, m) => Result(v, m)
      case NoValue => Stuck
      case OutOfFuel => Timeout
  }

  function SetVar(x: string, r: Value, env: Env): Outcome {
    match r
    case Val(v, m) => Normal(env[x := v], m)
    case NoValue => Stuck
    case OutOfFuel => Timeout
  }

  /** The turns of a `for` loop from its test on. */
  function RunLoop(depth: nat, fs: seq<Func>, ids: Ids, s: Stmt, env: Env, mem: Memory, fuel: nat): Outcome
    requires s.For?
    decreases depth, fuel, s, 0
  {
    if fuel == 0 then Timeout
    else if s.v !in env then Stuck
    else
      match Eval(depth, fs, ids, s.bound, env, mem, fuel)
      case Val(b, m) =>
        if env[s.v] >= b then Normal(env, m)
        else
          (match RunBlock(depth, fs, ids, s.body, env, m, fuel)
           case Normal(env', m') =>
             if s.v !in env' then Stuck
             else RunLoop(depth, fs, ids, s, env'[s.v := S32(env'[s.v] as int + 1)], m', fuel - 1)
           case r => r)
      case NoValue => Stuck
      case OutOfFuel => Timeout
  }

  // ----- agreement of the ALU with C -----

  lemma DivNonneg(x: nat, y: int)
    requires y > 0
    ensures 0 <= x / y <= x && (x / y) * y <= x < (x / y) * y + y
  {
    var q := x / y;
    assert x == q * y + x % y;
    if q < 0 {
      MulLower(-q, y);
    }
    if q > x {
      MulLower(y, q);
    }
  }

  lemma QuotientPositive(x: nat, y: int)
    requires 0 < y <= x
    ensures x / y >= 1
  {
    DivNonneg(x, y);
  }

  lemma QuotientHalf(x: nat, y: int)
    requires y >= 2
    ensures 2 * (x / y) <= x
  {
    DivNonneg(x, y);
    assert (x / y) * y >= (x / y) * 2;
  }

  /** Unsigned division of the words is C division exactly on the safe operands. */
  lemma DivAgreesIff(a: Int32, b: Int32)
    requires b != 0
    ensures AluResult(OP_DIV, U32(a), U32(b), 0) == U32(TruncDiv(a, b)) <==> DivSafe(a, b)
  {
    SignedRange(a);
    SignedRange(b);
    var m: int, n: int := Abs(a), Abs(b);
    DivNonneg(m, n);
    assert 0 <= m / n <= m;
    UnsignedQuotient(a, b);
    if (a >= 0) == (b >= 0) {
      WordOf(m / n);
    } else {
      WordOf(-(m / n));
    }
  }

  lemma WordOf(v: int)
    requires -TWO31 <= v <= TWO31
    ensures U32(v) == if v < 0 then v + TWO32 else v
  {
  }

  /** The quotient of the words, by the signs of the operands. */
  lemma UnsignedQuotient(a: Int32, b: Int32)
    requires b != 0
    ensures a >= 0 && b > 0 ==> U32(a) / U32(b) == Abs(a) / Abs(b)
    ensures a >= 0 && b < 0 ==> U32(a) / U32(b) == 0 && (Abs(a) / Abs(b) == 0 <==> a < -(b as int))
    ensures a < 0 && b == 1 ==> U32(a) / U32(b) == TWO32 + a && Abs(a) / Abs(b) == -(a as int)
    ensures a < 0 && b > 1 ==> U32(a) / U32(b) <= TWO31 && 2 * (Abs(a) / Abs(b)) <= Abs(a)
                               && (Abs(a) / Abs(b) == 0 ==> U32(a) / U32(b) > 0)
    ensures a < 0 && b < 0 ==> U32(a) / U32(b) == (if a < b then 0 else 1)
                               && (a < b ==> Abs(a) / Abs(b) >= 1)
                               && (a > b ==> Abs(a) / Abs(b) == 0) && (a == b ==> Abs(a) / Abs(b) == 1)
  {
    SignedRange(a);
    SignedRange(b);
    var m: int, n: int, x: int, y: int := Abs(a), Abs(b), U32(a), U32(b);
    if a >= 0 && b < 0 {
      DivModUnique(x, y, 0, x);
      if m < n { DivModUnique(m, n, 0, m); } else { QuotientPositive(m, n); }
    } else if a < 0 && b == 1 {
      DivModUnique(x, 1, x, 0);
      DivModUnique(m, 1, m, 0);
    } else if a < 0 && b > 1 {
      QuotientHalf(x, b);
      QuotientHalf(m, b);
      QuotientPositive(x, b);
    } else if a < 0 && b < 0 {
      if a < b {
        DivModUnique(x, y, 0, x);
        QuotientPositive(m, n);
      } else {
        DivModUnique(x, y, 1, x - y);
        if a > b { DivModUnique(m, n, 0, m); } else { DivModUnique(m, n, 1, 0); }
      }
    }
  }

  /** The unsigned remainder of the words is the C remainder exactly on the safe operands. */
  lemma ModAgreesIff(a: Int32, b: Int32)
    requires b != 0
    ensures AluResult(OP_MOD, U32(a), U32(b), 0) == U32(TruncMod(a, b)) <==> ModSafe(a, b)
  {
    SignedRange(a);
    SignedRange(b);
    RemainderSign(a, b);
    var r: int := Abs(a) % Abs(b);
    WordOf(if a >= 0 then r else -r);
    UnsignedRemainder(a, b);
  }

  lemma RemainderSign(a: int, b: int)
    requires b != 0
    ensures TruncMod(a, b) == if a >= 0 then Abs(a) % Abs(b) else -(Abs(a) % Abs(b))
  {
    var m: int, n: int := Abs(a), Abs(b);
    var q, r := m / n, m % n;
    assert m == q * n + r;
    if a >= 0 && b > 0 {
      assert a - b * q == r;
    } else if a >= 0 {
      assert a - b * -q == r;
    } else if b > 0 {
      assert a - b * -q == -r;
    } else {
      assert a - b * q == -r;
    }
  }

  /** The remainder of the words, by the signs of the operands. */
  lemma UnsignedRemainder(a: Int32, b: Int32)
    requires b != 0
    ensures a >= 0 && b > 0 ==> U32(a) % U32(b) == Abs(a) % Abs(b)
    ensures a >= 0 && b < 0 ==> U32(a) % U32(b) == a && (Abs(a) % Abs(b) == a <==> a < -(b as int))
    ensures a < 0 && b > 0 ==> (U32(a) % U32(b) == 0 <==> (TWO32 + a) % b == 0) && 0 <= U32(a) % U32(b) < b
                               && (Abs(a) % Abs(b) == 0 <==> a % b == 0)
                               && (a % b == 0 ==> ((TWO32 + a) % b == 0 <==> TWO32 % b == 0))
    ensures a < 0 && b < 0 ==> U32(a) % U32(b) == (if a < b then TWO32 + a else a - b)
                               && (a > b ==> Abs(a) % Abs(b) == Abs(a)) && (a == b ==> Abs(a) % Abs(b) == 0)
                               && Abs(a) % Abs(b) < Abs(b)
  {
    SignedRange(a);
    SignedRange(b);
    var m: int, n: int, x: int, y: int := Abs(a), Abs(b), U32(a), U32(b);
    if a >= 0 && b < 0 {
      DivModUnique(x, y, 0, x);
      if m < n { DivModUnique(m, n, 0, m); }
    } else if a < 0 && b > 0 {
      DivisorSplit(a, b);
    } else if a < 0 && b < 0 {
      if a < b {
        DivModUnique(x, y, 0, x);
      } else {
        DivModUnique(x, y, 1, x - y);
        if a > b { DivModUnique(m, n, 0, m); } else { DivModUnique(m, n, 1, 0); }
      }
    }
  }

  /** A negative dividend under a positive divisor: the unsigned remainder vanishes with both parts. */
  lemma DivisorSplit(a: int, b: int)
    requires -TWO31 <= a < 0 < b < TWO31
    ensures a % b == 0 <==> (-a) % b == 0
    ensures a % b == 0 ==> ((TWO32 + a) % b == 0 <==> TWO32 % b == 0)
    ensures 0 <= (TWO32 + a) % b < b
  {
    var q := a / b;
    assert a == q * b + a % b;
    if a % b == 0 {
      DivModUnique(-a, b, -q, 0);
      ModShift(TWO32, q, b);
    } else {
      DivModUnique(-a, b, -q - 1, b - a % b);
    }
  }
}
