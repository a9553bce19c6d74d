/** The lane, started on lowered code, does what the source means. */
module Simulation {
  import opened Words
  import opened Isa
  import opened Lang
  import opened Sema
  import opened Lowering
  import opened Temporaries
  import opened Layout
  import opened Footprint
  import opened Operators

  // ----- side conditions on the source, all syntactic -----

  /** The temporaries a func uses; it starts at the first one, whoever calls it. */
  function FuncNeed(fs: seq<Func>, name: string): nat {
    var k := FindFunc(fs, name);
    if k < |fs| then BlockNeed(fs[k].body) else 0
  }

  /** None for code without calls, otherwise the most temporaries any of its callees uses. */
  type Calls = Option<nat>

  function Either(a: Calls, b: Calls): Calls {
    if a.None? then b else if b.None? then a else Some(Max(a.value, b.value))
  }

  function CallsOf(fs: seq<Func>, e: Expr): Calls
    decreases e, 1
  {
    match e
    case Op(_, args) => CallsOfAll(fs, args)
    case MemLoad(a) => CallsOf(fs, a)
    case CallF(f, args) => Either(CallsOfAll(fs, args), Some(FuncNeed(fs, f)))
    case _ => None
  }

  function CallsOfAll(fs: seq<Func>, es: seq<Expr>): Calls
    decreases es, 0
  {
    if es == [] then None else Either(CallsOf(fs, es[0]), CallsOfAll(fs, es[1..]))
  }

  /** An operand evaluated at `t` that calls among later operands leave alone: it stays in a register of the caller,
      or in a temporary above those the callees use. */
  predicate OutOfReach(e: Expr, t: int, calls: Calls) {
    calls.None? || Steady(e) || t + Held(e) > TMP_BASE + calls.value
  }

  /** No temporary that a callee uses is live across its call, the expression being evaluated at `t`. */
  predicate SafeExpr(fs: seq<Func>, e: Expr, t: int)
    decreases e, 1
  {
    match e
    case Op(_, args) => SafeAll(fs, args, t)
    case MemLoad(a) => SafeExpr(fs, a, t)
    case CallF(_, args) => SafeAll(fs, args, t)
    case _ => true
  }

  predicate SafeAll(fs: seq<Func>, es: seq<Expr>, t: int)
    decreases es, 0
  {
    es == []
    || (SafeExpr(fs, es[0], t) && SafeAll(fs, es[1..], t + Held(es[0])) && OutOfReach(es[0], t, CallsOfAll(fs, es[1..])))
  }

  /** Every literal that reaches a CONST fits its 16-bit field. */
  predicate LitsFit(e: Expr)
    decreases e, 1
  {
    match e
    case Lit(v) => 0 <= v <= 0xFFFF
    case Op(_, args) => Folds(e) || LitsFitAll(args)
    case MemLoad(a) => LitsFit(a)
    case CallF(_, args) => LitsFitAll(args)
    case _ => true
  }

  predicate LitsFitAll(es: seq<Expr>)
    decreases es, 0
  {
    es == [] || (LitsFit(es[0]) && LitsFitAll(es[1..]))
  }

  predicate Fine(fs: seq<Func>, e: Expr, t: int) {
    SafeExpr(fs, e, t) && LitsFit(e)
  }

  predicate FineAll(fs: seq<Func>, es: seq<Expr>, t: int) {
    SafeAll(fs, es, t) && LitsFitAll(es)
  }

  /** A statement whose expressions are safe and whose assigned names have a register. */
  predicate FineStmt(fs: seq<Func>, tab: seq<Binding>, s: Stmt)
    decreases s, 1
  {
    match s
    case Decl(x, e) => Lookup(tab, x) > 0 && Fine(fs, e, TMP_BASE)
    case Assign(x, e) => Lookup(tab, x) > 0 && Fine(fs, e, TMP_BASE)
    case Store(addr, val) => FineAll(fs, [val, addr], TMP_BASE)
    case If(cond, thn, els) => cond.Op? && FineAll(fs, cond.args, TMP_BASE) && FineBlock(fs, tab, thn) && FineBlock(fs, tab, els)
    case For(x, init, bound, body) => Lookup(tab, x) > 0 && Fine(fs, init, TMP_BASE) && Fine(fs, bound, TMP_BASE) && FineBlock(fs, tab, body)
    case Return(r) => r.Some? ==> Fine(fs, r.value, TMP_BASE)
  }

  predicate FineBlock(fs: seq<Func>, tab: seq<Binding>, b: Block)
    decreases b, 0
  {
    b.Seq? ==> FineStmt(fs, tab, b.head) && FineBlock(fs, tab, b.tail)
  }

  // ----- the program in memory -----

  datatype World = World(prog: seq<Instr>, fs: seq<Func>, tabs: seq<seq<Binding>>, starts: seq<nat>, ids: Ids)

  predicate CodeAt(w: World, pc: int, code: seq<Instr>) {
    0 <= pc && pc + |code| <= |w.prog|
    && forall k {:trigger code[k]} :: 0 <= k < |code| ==> w.prog[pc + k] == LinkInstr(w.fs, w.starts, code[k], pc + k)
  }

  function Highest(w: World, depth: nat): int {
    if depth == 0 then FUNC_REG_BASE + FUNC_MAX_VARS - 1 else if w.fs == [] then MAX_VARS else FUNC_REG_BASE - 1
  }

  /** Distinct names have distinct registers, all in the window of their kind of body. */
  ghost predicate Scoped(w: World, depth: nat, tab: seq<Binding>) {
    && depth <= 1
    && (forall x :: Lookup(tab, x) == -1 || (if depth == 0 then FUNC_REG_BASE else 1) <= Lookup(tab, x) <= Highest(w, depth))
    && (forall x, y :: Lookup(tab, x) == Lookup(tab, y) != -1 ==> x == y)
  }

  /** Code that leaves the temporaries behind the first `need` alone. */
  predicate Spares(code: seq<Instr>, need: nat) {
    forall r :: TMP_BASE + need <= r < TMP_ONE ==> !Written(code, r)
  }

  ghost predicate FuncOk(w: World, k: nat)
    requires k < |w.fs| == |w.tabs| == |w.starts|
  {
    var f, tab := w.fs[k], w.tabs[k];
    && Scoped(w, 0, tab)
    && |f.params| <= FUNC_MAX_VARS
    && (forall i :: 0 <= i < |f.params| ==> Lookup(tab, f.params[i]) == FUNC_REG_BASE + i)
    && FineBlock(w.fs, tab, f.body)
    && LowerBlock(tab, f.body).Some?
    && Region(w.fs, false, LowerBlock(tab, f.body).value)
    && Spares(LowerBlock(tab, f.body).value, BlockNeed(f.body))
    && CodeAt(w, w.starts[k], LowerBlock(tab, f.body).value)
  }

  ghost predicate WorldOk(w: World) {
    |w.fs| == |w.tabs| == |w.starts| && forall k :: 0 <= k < |w.fs| ==> FuncOk(w, k)
  }

  // ----- relating the two states -----

  ghost predicate Agrees(w: World, tab: seq<Binding>, env: Env, s: Lane) {
    forall x :: x in env ==> Lookup(tab, x) > 0 && Read(w.ids, s, Lookup(tab, x)) == U32(env[x])
  }

  predicate Live(depth: nat, s: Lane) {
    |s.regs| == 32 && !s.halted && |s.stack| + depth == 1
  }

  /** A lane in the middle of a body whose variables hold `env`. */
  ghost predicate Context(w: World, depth: nat, tab: seq<Binding>, env: Env, s: Lane) {
    WorldOk(w) && Scoped(w, depth, tab) && Agrees(w, tab, env, s) && Live(depth, s)
  }

  /** The registers an expression with free temporaries from `t` on leaves alone. With calls these are the caller's own,
      and the temporaries in use that no callee uses. */
  predicate Kept(w: World, depth: nat, calls: Calls, t: int, r: int) {
    if depth > 0 && w.fs != [] && calls.Some? then r < FUNC_REG_BASE || r > TMP_ONE || TMP_BASE + calls.value <= r < t
    else !(t <= r < TMP_ONE)
  }

  ghost predicate Advanced(w: World, depth: nat, calls: Calls, t: int, s: Lane, s': Lane) {
    && |s'.regs| == 32 && !s'.halted && s'.stack == s.stack
    && (Flag(s.nzp) ==> Flag(s'.nzp))
    && (Read(w.ids, s, TMP_ONE) == 1 ==> Read(w.ids, s', TMP_ONE) == 1)
    && forall r :: 0 <= r < 32 && Kept(w, depth, calls, t, r) ==> Read(w.ids, s', r) == Read(w.ids, s, r)
  }

  /** What running a statement leaves alone: in a func, the registers of the kernel. */
  ghost predicate Carried(w: World, depth: nat, s: Lane, s': Lane) {
    && |s'.regs| == 32
    && (Flag(s.nzp) ==> Flag(s'.nzp))
    && (Read(w.ids, s, TMP_ONE) == 1 ==> Read(w.ids, s', TMP_ONE) == 1)
    && (depth == 0 ==> forall r :: 0 <= r < FUNC_REG_BASE ==> Read(w.ids, s', r) == Read(w.ids, s, r))
  }

  // ----- running pieces of code -----

  lemma CodeSplit(w: World, pc: int, a: seq<Instr>, b: seq<Instr>)
    requires CodeAt(w, pc, a + b)
    ensures CodeAt(w, pc, a) && CodeAt(w, pc + |a|, b)
  {
    forall k | 0 <= k < |a|
      ensures w.prog[pc + k] == LinkInstr(w.fs, w.starts, a[k], pc + k)
    {
      assert (a + b)[k] == a[k];
    }
    forall k | 0 <= k < |b|
      ensures w.prog[pc + |a| + k] == LinkInstr(w.fs, w.starts, b[k], pc + |a| + k)
    {
      assert (a + b)[|a| + k] == b[k];
    }
  }

  /** On the way the call stack is never lower than at the start. */
  ghost predicate Deep(w: World, s: Lane, n: nat) {
    forall m: nat :: m < n ==> |Isa.Run(w.ids, w.prog, s, m).stack| >= |s.stack|
  }

  /** `n` steps lead from `s` to `s'`, with no return from the body `s` is in before the last of them. */
  ghost predicate Runs(w: World, s: Lane, n: nat, s': Lane) {
    Isa.Run(w.ids, w.prog, s, n) == s' && Deep(w, s, n)
  }

  lemma Join(w: World, s: Lane, n: nat, s1: Lane, m: nat, s2: Lane)
    requires Runs(w, s, n, s1) && Runs(w, s1, m, s2) && |s1.stack| >= |s.stack|
    ensures Runs(w, s, n + m, s2)
  {
    RunAdd(w.ids, w.prog, s, n, m);
    forall k: nat | k < n + m
      ensures |Isa.Run(w.ids, w.prog, s, k).stack| >= |s.stack|
    {
      if k >= n {
        RunAdd(w.ids, w.prog, s, n, k - n);
      }
    }
  }

  /** One instruction at the pc. */
  lemma One(w: World, s: Lane, i: Instr) returns (s': Lane)
    requires CodeAt(w, s.pc, [i]) && !s.halted
    ensures s' == Exec(w.ids, LinkInstr(w.fs, w.starts, i, s.pc), s)
    ensures Runs(w, s, 1, s')
  {
    assert [i][0] == i;
    s' := Step(w.ids, w.prog, s);
    assert Isa.Run(w.ids, w.prog, s, 1) == Isa.Run(w.ids, w.prog, s', 0);
  }

  // ----- single instructions -----

  lemma StepAlu(w: World, s: Lane, op: Operator, rd: int, r: seq<int>, v: seq<Int32>) returns (s': Lane)
    requires |r| == |v| == Arity(op) && Apply(op, v).Some? && |s.regs| == 32 && !s.halted
    requires forall i :: 0 <= i < |r| ==> Read(w.ids, s, r[i]) == U32(v[i])
    requires CodeAt(w, s.pc, [AluInstr(op, rd, r)])
    ensures Runs(w, s, 1, s')
    ensures s' == Next(Write(s, rd, U32(Apply(op, v).value)))
  {
    AluCorrect(op, v);
    s' := One(w, s, AluInstr(op, rd, r));
  }

  lemma StepMov(w: World, s: Lane, dst: int, src: int) returns (n: nat, s': Lane)
    requires CodeAt(w, s.pc, Mov(dst, src)) && !s.halted && |s.regs| == 32 && 1 <= dst <= 28
    ensures Runs(w, s, n, s')
    ensures s'.pc == s.pc + |Mov(dst, src)| && s'.mem == s.mem && s'.stack == s.stack && s'.nzp == s.nzp
    ensures !s'.halted && |s'.regs| == 32
    ensures forall r :: 0 <= r < 32 ==> Read(w.ids, s', r) == Read(w.ids, s, if r == dst then src else r)
  {
    if dst == src {
      n, s' := 0, s;
    } else {
      n := 1;
      s' := One(w, s, Alu(OP_ADD, dst, src, 0, 0));
    }
  }

  lemma StepConst(w: World, s: Lane, rd: int, imm: int) returns (s': Lane)
    requires CodeAt(w, s.pc, [Const(rd, imm)]) && !s.halted && |s.regs| == 32
    ensures Runs(w, s, 1, s')
    ensures s' == Next(Write(s, rd, U32(imm)))
  {
    s' := One(w, s, Const(rd, imm));
  }

  lemma StepLoad(w: World, s: Lane, rd: int, base: int) returns (s': Lane)
    requires CodeAt(w, s.pc, [Ldr(rd, base, 0)]) && !s.halted && |s.regs| == 32
    ensures Runs(w, s, 1, s')
    ensures s' == Next(Write(s, rd, Load(s.mem, Read(w.ids, s, base))))
  {
    hide CodeAt, Read, Load, Write;
    s' := One(w, s, Ldr(rd, base, 0));
  }

  lemma StepStore(w: World, s: Lane, src: int, base: int) returns (s': Lane)
    requires CodeAt(w, s.pc, [Str(src, base, 0)]) && !s.halted && |s.regs| == 32
    ensures Runs(w, s, 1, s')
    ensures s' == Next(s.(mem := s.mem[Read(w.ids, s, base) := Read(w.ids, s, src)]))
  {
    hide CodeAt, Read;
    s' := One(w, s, Str(src, base, 0));
  }

  lemma StepCompare(w: World, s: Lane, l: int, r: int) returns (s': Lane)
    requires CodeAt(w, s.pc, [Cmp(l, r)]) && !s.halted
    ensures Runs(w, s, 1, s')
    ensures s' == Next(s.(nzp := CompareNzp(Read(w.ids, s, l), Read(w.ids, s, r))))
  {
    s' := One(w, s, Cmp(l, r));
  }

  lemma StepBranch(w: World, s: Lane, mask: int, off: int) returns (s': Lane)
    requires CodeAt(w, s.pc, [Brnzp(mask, off)]) && !s.halted
    ensures Runs(w, s, 1, s')
    ensures s' == if NzpMatch(s.nzp, mask) then s.(pc := s.pc + off) else Next(s)
  {
    s' := One(w, s, Brnzp(mask, off));
  }

  lemma {:induction false} FoldHasNoCall(fs: seq<Func>, e: Expr)
    requires Fold(e).Some?
    ensures CallsOf(fs, e).None?
    decreases e
  {
    if e.Op? {
      FoldHasNoCall(fs, e.args[0]);
      if |e.args| == 1 {
        assert CallsOfAll(fs, e.args[1..]).None?;
      } else {
        FoldHasNoCall(fs, e.args[1]);
        var rest := e.args[1..];
        assert rest[0] == e.args[1] && CallsOfAll(fs, rest[1..]).None?;
        assert CallsOfAll(fs, rest).None?;
      }
    }
  }

  lemma EvalOne(depth: nat, fs: seq<Func>, ids: Ids, es: seq<Expr>, env: Env, mem: Memory, fuel: nat)
    requires |es| == 1
    ensures EvalAll(depth, fs, ids, es, env, mem, fuel)
            == match Eval(depth, fs, ids, es[0], env, mem, fuel)
               case Val(v, m) => Vals([v], m)
               case NoValue => NoValues
               case OutOfFuel => NoFuel
  {
    assert es[1..] == [];
    assert forall v: Int32 :: [v] + [] == [v];
  }

  lemma EvalTwo(depth: nat, fs: seq<Func>, ids: Ids, es: seq<Expr>, env: Env, mem: Memory, fuel: nat)
    requires |es| == 2
    ensures EvalAll(depth, fs, ids, es, env, mem, fuel)
            == match Eval(depth, fs, ids, es[0], env, mem, fuel)
               case Val(v, m) =>
                 (match Eval(depth, fs, ids, es[1], env, m, fuel)
                  case Val(v', m') => Vals([v, v'], m')
                  case NoValue => NoValues
                  case OutOfFuel => NoFuel)
               case NoValue => NoValues
               case OutOfFuel => NoFuel
  {
    assert forall v: Int32, v': Int32 :: [v] + [v'] == [v, v'];
    match Eval(depth, fs, ids, es[0], env, mem, fuel)
    case Val(v, m) =>
      assert es[1..][0] == es[1];
      EvalOne(depth, fs, ids, es[1..], env, m, fuel);
    case _ =>
  }

  /** Constant folding agrees with evaluation wherever evaluation is defined. */
  lemma {:induction false} FoldSound(depth: nat, fs: seq<Func>, ids: Ids, e: Expr, env: Env, mem: Memory, fuel: nat)
    requires Fold(e).Some?
    ensures var r := Eval(depth, fs, ids, e, env, mem, fuel); r == Val(Fold(e).value, mem) || r == NoValue
    decreases e
  {
    if e.Op? {
      FoldSound(depth, fs, ids, e.args[0], env, mem, fuel);
      if |e.args| == 1 {
        FoldOne(depth, fs, ids, e, env, mem, fuel);
      } else {
        FoldSound(depth, fs, ids, e.args[1], env, mem, fuel);
        EvalTwo(depth, fs, ids, e.args, env, mem, fuel);
        FoldAgrees(e.op, Fold(e.args[0]).value, Fold(e.args[1]).value);
      }
    }
  }

  lemma FoldOne(depth: nat, fs: seq<Func>, ids: Ids, e: Expr, env: Env, mem: Memory, fuel: nat)
    requires e.Op? && |e.args| == 1 && Fold(e).Some?
    requires var r := Eval(depth, fs, ids, e.args[0], env, mem, fuel); r == Val(Fold(e.args[0]).value, mem) || r == NoValue
    ensures var r := Eval(depth, fs, ids, e, env, mem, fuel); r == Val(Fold(e).value, mem) || r == NoValue
  {
    hide Apply, EvalAll;
    var l := Fold(e.args[0]).value;
    UnaryFolds(e);
    EvalOne(depth, fs, ids, e.args, env, mem, fuel);
  }

  lemma UnaryFolds(e: Expr)
    requires e.Op? && |e.args| == 1 && Fold(e).Some?
    ensures Fold(e.args[0]).Some? && Arity(e.op) == 1 && Apply(e.op, [Fold(e.args[0]).value]) == Fold(e)
  {
  }

  lemma FoldAgrees(op: Operator, l: Int32, r: Int32)
    requires Arity(op) == 2 && FoldBinary(op, l, r).Some?
    ensures Apply(op, [l, r]).Some? ==> Apply(op, [l, r]) == FoldBinary(op, l, r)
  {
    if 0 <= r < 32 {
      DivModUnique(r, 32, 0, r);
    }
  }

  // ----- frames -----

  /** After an expression's code the lane is where a statement may leave it. */
  lemma Settle(w: World, depth: nat, tab: seq<Binding>, env: Env, calls: Calls, t: int, s: Lane, s': Lane)
    requires Context(w, depth, tab, env, s) && TMP_BASE <= t <= TMP_ONE && Advanced(w, depth, calls, t, s, s')
    ensures Context(w, depth, tab, env, s') && Carried(w, depth, s, s')
    ensures Live(depth, s') && |s'.regs| == 32 && !s'.halted && s'.stack == s.stack && (Flag(s.nzp) ==> Flag(s'.nzp))
  {
    hide WorldOk;
    forall x | x in env
      ensures Lookup(tab, x) > 0 && Read(w.ids, s', Lookup(tab, x)) == U32(env[x])
    {
      assert Kept(w, depth, calls, t, Lookup(tab, x));
    }
    if depth == 0 {
      forall r | 0 <= r < FUNC_REG_BASE
        ensures Read(w.ids, s', r) == Read(w.ids, s, r)
      {
        assert Kept(w, depth, calls, t, r);
      }
    }
  }

  lemma AdvanceNone(w: World, depth: nat, t: int, s: Lane)
    requires Live(depth, s)
    ensures Advanced(w, depth, None, t, s, s)
  {
  }

  lemma AdvanceTrans(w: World, depth: nat, c1: Calls, t1: int, s: Lane, s1: Lane, c2: Calls, t2: int, s2: Lane)
    requires TMP_BASE <= t1 <= t2 <= TMP_ONE
    requires Advanced(w, depth, c1, t1, s, s1) && Advanced(w, depth, c2, t2, s1, s2)
    ensures Advanced(w, depth, Either(c1, c2), t1, s, s2)
  {
    forall r | 0 <= r < 32 && Kept(w, depth, Either(c1, c2), t1, r)
      ensures Read(w.ids, s2, r) == Read(w.ids, s, r)
    {
      assert Kept(w, depth, c1, t1, r) && Kept(w, depth, c2, t2, r);
    }
  }

  lemma AdvanceWrite(w: World, depth: nat, t: int, s: Lane, v: Word)
    requires TMP_BASE <= t < TMP_ONE && |s.regs| == 32 && !s.halted
    ensures var s' := Next(Write(s, t, v));
            s'.pc == s.pc + 1 && s'.mem == s.mem && Read(w.ids, s', t) == v && Advanced(w, depth, None, t, s, s')
  {
  }

  /** The register of the first operand keeps its value while the others are evaluated. */
  lemma HeadKept(w: World, depth: nat, tab: seq<Binding>, es: seq<Expr>, t: int, s: Lane, s': Lane)
    requires Scoped(w, depth, tab) && TMP_BASE <= t <= TMP_ONE && es != [] && SafeAll(w.fs, es, t)
    requires LowerExpr(tab, es[0], t).Good?
    requires Advanced(w, depth, CallsOfAll(w.fs, es[1..]), LowerExpr(tab, es[0], t).next, s, s')
    ensures var r := LowerExpr(tab, es[0], t).reg; Read(w.ids, s', r) == Read(w.ids, s, r)
  {
    LowerShape(tab, es[0], t);
    var g := LowerExpr(tab, es[0], t);
    assert Kept(w, depth, CallsOfAll(w.fs, es[1..]), g.next, g.reg);
  }

  /** A statement that sets the variable `x` and nothing else a variable lives in. */
  lemma AgreesSet(w: World, depth: nat, tab: seq<Binding>, env: Env, x: string, v: Int32, s: Lane, s': Lane)
    requires Scoped(w, depth, tab) && Agrees(w, tab, env, s) && Lookup(tab, x) > 0
    requires Read(w.ids, s', Lookup(tab, x)) == U32(v)
    requires forall r :: 0 <= r < TMP_BASE && r != Lookup(tab, x) ==> Read(w.ids, s', r) == Read(w.ids, s, r)
    ensures Agrees(w, tab, env[x := v], s')
  {
  }

  /** Moves of temporaries and variables into the func window. */
  lemma {:induction false} StepMovs(w: World, s: Lane, src: seq<int>) returns (n: nat, s': Lane)
    requires CodeAt(w, s.pc, Movs(FUNC_REG_BASE, src)) && !s.halted && |s.regs| == 32
    requires |src| <= FUNC_MAX_VARS
    requires forall i :: 0 <= i < |src| ==> 0 <= src[i] < 32 && !(FUNC_REG_BASE <= src[i] < FUNC_REG_BASE + FUNC_MAX_VARS)
    ensures Runs(w, s, n, s')
    ensures s'.pc == s.pc + |Movs(FUNC_REG_BASE, src)| && s'.mem == s.mem && s'.stack == s.stack && s'.nzp == s.nzp
    ensures !s'.halted && |s'.regs| == 32
    ensures forall i :: 0 <= i < |src| ==> Read(w.ids, s', FUNC_REG_BASE + i) == Read(w.ids, s, src[i])
    ensures forall r :: 0 <= r < 32 && !(FUNC_REG_BASE <= r < FUNC_REG_BASE + |src|) ==> Read(w.ids, s', r) == Read(w.ids, s, r)
    decreases |src|
  {
    hide CodeAt, Mov, Read;
    if src == [] {
      n, s' := 0, s;
    } else {
      var k := |src| - 1;
      CodeSplit(w, s.pc, Movs(FUNC_REG_BASE, src[..k]), Mov(FUNC_REG_BASE + k, src[k]));
      forall i | 0 <= i < k
        ensures 0 <= src[..k][i] < 32 && !(FUNC_REG_BASE <= src[..k][i] < FUNC_REG_BASE + FUNC_MAX_VARS)
      {
        assert src[..k][i] == src[i];
      }
      var n1, s1 := StepMovs(w, s, src[..k]);
      var n2, s2 := StepMov(w, s1, FUNC_REG_BASE + k, src[k]);
      Join(w, s, n1, s1, n2, s2);
      n, s' := n1 + n2, s2;
      assert Read(w.ids, s', FUNC_REG_BASE + k) == Read(w.ids, s1, src[k]) == Read(w.ids, s, src[k]);
      forall i | 0 <= i < |src|
        ensures Read(w.ids, s', FUNC_REG_BASE + i) == Read(w.ids, s, src[i])
      {
        if i < k {
          assert Read(w.ids, s', FUNC_REG_BASE + i) == Read(w.ids, s1, FUNC_REG_BASE + i) == Read(w.ids, s, src[..k][i]);
        }
      }
    }
  }

  /** Each parameter's value is found in the register its position gives it. */
  lemma {:induction false} BindAgrees(w: World, tab: seq<Binding>, params: seq<string>, vs: seq<Int32>, base: int, s: Lane)
    requires |params| == |vs| && base > 0
    requires forall i :: 0 <= i < |params| ==> Lookup(tab, params[i]) == base + i
    requires forall i :: 0 <= i < |vs| ==> Read(w.ids, s, base + i) == U32(vs[i])
    ensures Agrees(w, tab, Bind(params, vs), s)
    decreases |params|
  {
    if params != [] {
      var k := |params| - 1;
      forall i | 0 <= i < k
        ensures Lookup(tab, params[..k][i]) == base + i
        ensures Read(w.ids, s, base + i) == U32(vs[..k][i])
      {
      }
      BindAgrees(w, tab, params[..k], vs[..k], base, s);
      assert Lookup(tab, params[k]) == base + k;
    }
  }
}
