/** How many temporaries code generation needs, exactly. */
module Temporaries {
  import opened Words
  import opened Lang
  import opened Sema
  import opened Lowering

  function Max(a: int, b: int): int { if a >= b then a else b }

  /** The temporaries in use at the same time, at most, while an expression is evaluated. */
  function Need(e: Expr): nat
    decreases e, 1
  {
    match e
    case Lit(_) => 1
    case Op(_, args) => if Folds(e) then 1 else Max(1, NeedAll(args))
    case MemLoad(a) => Max(Need(a), Held(a) + 1)
    case CallF(_, args) => Max(1, NeedAll(args))
    case _ => 0
  }

  /** Operands are evaluated in turn, each while those before it are held. */
  function NeedAll(es: seq<Expr>): nat
    decreases es, 0
  {
    if es == [] then 0 else Max(Need(es[0]), Held(es[0]) + NeedAll(es[1..]))
  }

  /** What the code generator demands besides enough temporaries: no comparisons as operands, known names. */
  predicate Arithmetic(tab: seq<Binding>, e: Expr)
    decreases e, 1
  {
    match e
    case Var(x) => Lookup(tab, x) >= 0
    case Op(op, args) => |args| == Arity(op) && !IsComparison(op) && ArithmeticAll(tab, args)
    case MemLoad(a) => Arithmetic(tab, a)
    case CallF(_, args) => ArithmeticAll(tab, args)
    case _ => true
  }

  predicate ArithmeticAll(tab: seq<Binding>, es: seq<Expr>)
    decreases es, 0
  {
    es == [] || (Arithmetic(tab, es[0]) && ArithmeticAll(tab, es[1..]))
  }

  lemma {:induction false} HeldWithinNeed(e: Expr)
    ensures Held(e) <= Need(e)
    decreases e
  {
    if e.MemLoad? {
      HeldWithinNeed(e.addr);
    }
  }

  /** What folds is arithmetic. */
  lemma {:induction false} FoldArithmetic(tab: seq<Binding>, e: Expr)
    requires Fold(e).Some?
    ensures Arithmetic(tab, e)
    decreases e
  {
    if e.Op? {
      var es := e.args;
      FoldArithmetic(tab, es[0]);
      if |es| == 2 {
        FoldArithmetic(tab, es[1]);
        assert es[1..] == [es[1]] && es[1..][1..] == [];
        assert ArithmeticAll(tab, es[1..]);
      }
      assert ArithmeticAll(tab, es);
    }
  }

  /** Code is generated exactly for the expressions without comparisons as operands whose need fits between the first
      free temporary and the reserved one. */
  lemma {:induction false} NeedExact(tab: seq<Binding>, e: Expr, t: int)
    requires TMP_BASE <= t <= TMP_ONE
    ensures LowerExpr(tab, e, t).Good? <==> Arithmetic(tab, e) && t + Need(e) <= TMP_ONE
    ensures LowerExpr(tab, e, t).Good? ==> LowerExpr(tab, e, t).next == t + Held(e)
    decreases e, 1
  {
    hide Folds, Fold, AluInstr, Movs, Mov;
    HeldWithinNeed(e);
    match e
    case Op(op, args) =>
      NeedAllExact(tab, args, t);
      if Folds(e) { FoldedArithmetic(tab, e); }
    case MemLoad(a) => NeedExact(tab, a, t);
    case CallF(_, args) => NeedAllExact(tab, args, t);
    case _ =>
  }

  lemma FoldedArithmetic(tab: seq<Binding>, e: Expr)
    requires Folds(e)
    ensures Arithmetic(tab, e)
  {
    FoldArithmetic(tab, e);
  }

  lemma {:induction false} NeedAllExact(tab: seq<Binding>, es: seq<Expr>, t: int)
    requires TMP_BASE <= t <= TMP_ONE
    ensures LowerAll(tab, es, t).GoodAll? <==> ArithmeticAll(tab, es) && t + NeedAll(es) <= TMP_ONE
    decreases es, 0
  {
    if es != [] {
      NeedExact(tab, es[0], t);
      HeldWithinNeed(es[0]);
      if t + Held(es[0]) <= TMP_ONE {
        NeedAllExact(tab, es[1..], t + Held(es[0]));
      }
    }
  }

  // ----- statements -----

  const TEMPORARIES := TMP_ONE - TMP_BASE

  /** The temporaries in use at the same time, at most, while a statement runs. */
  function StmtNeed(s: Stmt): nat
    decreases s, 1
  {
    match s
    case Decl(_, e) => Need(e)
    case Assign(_, e) => Need(e)
    case Store(addr, val) => NeedAll([val, addr])
    case If(cond, thn, els) => Max(if cond.Op? then NeedAll(cond.args) else 0, Max(BlockNeed(thn), BlockNeed(els)))
    case For(_, init, bound, body) => Max(Max(Need(init), Need(bound)), BlockNeed(body))
    case Return(None) => 0
    case Return(Some(e)) => Need(e)
  }

  /** Statements start over at the first temporary. */
  function BlockNeed(b: Block): nat
    decreases b, 0
  {
    if b.End? then 0 else Max(StmtNeed(b.head), BlockNeed(b.tail))
  }

  /** No comparison is an operand, and the condition of an `if` has two operands. */
  predicate Sound(tab: seq<Binding>, s: Stmt)
    decreases s, 1
  {
    match s
    case Decl(_, e) => Arithmetic(tab, e)
    case Assign(_, e) => Arithmetic(tab, e)
    case Store(addr, val) => ArithmeticAll(tab, [val, addr])
    case If(cond, thn, els) =>
      cond.Op? && |cond.args| == 2 && ArithmeticAll(tab, cond.args) && SoundBlock(tab, thn) && SoundBlock(tab, els)
    case For(_, init, bound, body) => Arithmetic(tab, init) && Arithmetic(tab, bound) && SoundBlock(tab, body)
    case Return(r) => r.Some? ==> Arithmetic(tab, r.value)
  }

  predicate SoundBlock(tab: seq<Binding>, b: Block)
    decreases b, 0
  {
    b.Seq? ==> Sound(tab, b.head) && SoundBlock(tab, b.tail)
  }

  /** A body can be lowered exactly if it has no misplaced comparisons and no statement needs more than the eight temporaries. */
  lemma {:induction false} StmtExact(tab: seq<Binding>, s: Stmt)
    ensures LowerStmt(tab, s).Some? <==> Sound(tab, s) && StmtNeed(s) <= TEMPORARIES
    decreases s, 1
  {
    hide LowerExpr, LowerAll, Need, NeedAll, Arithmetic, ArithmeticAll, Lookup, IfCode, LoopCode, Mov;
    match s
    case Decl(_, e) => NeedExact(tab, e, TMP_BASE);
    case Assign(_, e) => NeedExact(tab, e, TMP_BASE);
    case Store(addr, val) => NeedAllExact(tab, [val, addr], TMP_BASE);
    case If(cond, thn, els) =>
      if cond.Op? { NeedAllExact(tab, cond.args, TMP_BASE); }
      BlockExact(tab, thn);
      BlockExact(tab, els);
    case For(_, init, bound, body) =>
      NeedExact(tab, init, TMP_BASE);
      NeedExact(tab, bound, TMP_BASE);
      BlockExact(tab, body);
    case Return(r) => if r.Some? { NeedExact(tab, r.value, TMP_BASE); }
  }

  lemma {:induction false} BlockExact(tab: seq<Binding>, b: Block)
    ensures LowerBlock(tab, b).Some? <==> SoundBlock(tab, b) && BlockNeed(b) <= TEMPORARIES
    decreases b, 0
  {
    if b.Seq? {
      StmtExact(tab, b.head);
      BlockExact(tab, b.tail);
    }
  }

  /** Funcs lower one by one. */
  lemma {:induction false} FuncsLower(tabs: seq<seq<Binding>>, fs: seq<Func>, at: nat)
    requires |tabs| == |fs|
    ensures LowerFuncs(tabs, fs, at).Some? <==> forall k :: 0 <= k < |fs| ==> LowerBlock(tabs[k], fs[k].body).Some?
    decreases |fs|
  {
    hide LowerBlock;
    if fs != [] {
      var b := LowerBlock(tabs[0], fs[0].body);
      if b.Some? {
        FuncsLower(tabs[1..], fs[1..], at + |b.value|);
        assert forall k :: 0 <= k < |fs[1..]| ==> LowerBlock(tabs[1..][k], fs[1..][k].body) == LowerBlock(tabs[k + 1], fs[k + 1].body);
        assert (forall k :: 1 <= k < |fs| ==> LowerBlock(tabs[k], fs[k].body).Some?)
          <==> (forall k :: 0 <= k < |fs[1..]| ==> LowerBlock(tabs[1..][k], fs[1..][k].body).Some?);
      }
    }
  }

  /** Compilation of an accepted program fails for a comparison outside the condition of an `if`, for want of temporaries
      or of room in the instruction buffer, and for nothing else. */
  lemma CompileExact(p: Program)
    requires p.kernels != [] && Check(p).Some?
    ensures var r := LowerProgram(Check(p).value.0[0], Check(p).value.1, p);
            && (r.Some? <==>
                  && SoundBlock(Check(p).value.0[0], p.kernels[0].body) && BlockNeed(p.kernels[0].body) <= TEMPORARIES
                  && forall k :: 0 <= k < |p.funcs| ==> SoundBlock(Check(p).value.1[k], p.funcs[k].body) && BlockNeed(p.funcs[k].body) <= TEMPORARIES)
            && (Compile(p).Some? <==> r.Some? && |r.value.0| <= MAX_INSTRUCTIONS)
  {
    hide Check, LowerBlock, BlockNeed, SoundBlock, LowerFuncs, LoadParams;
    var (ktabs, ftabs) := Check(p).value;
    BlockExact(ktabs[0], p.kernels[0].body);
    forall k | 0 <= k < |p.funcs|
      ensures LowerBlock(ftabs[k], p.funcs[k].body).Some? <==> SoundBlock(ftabs[k], p.funcs[k].body) && BlockNeed(p.funcs[k].body) <= TEMPORARIES
    {
      BlockExact(ftabs[k], p.funcs[k].body);
    }
    var kernel := LowerKernel(ktabs[0], p.kernels[0]);
    if kernel.Some? {
      FuncsLower(ftabs, p.funcs, |kernel.value|);
    }
  }

  // ----- depth, not size -----

  function Depth(e: Expr): nat
    decreases e, 1
  {
    match e
    case Op(_, args) => 1 + DepthAll(args)
    case _ => 0
  }

  function DepthAll(es: seq<Expr>): nat
    decreases es, 0
  {
    if es == [] then 0 else Max(Depth(es[0]), DepthAll(es[1..]))
  }

  /** No loads and no calls. */
  predicate Pure(e: Expr)
    decreases e, 1
  {
    match e
    case Op(op, args) => |args| == Arity(op) && PureAll(args)
    case MemLoad(_) => false
    case CallF(_, _) => false
    case _ => true
  }

  predicate PureAll(es: seq<Expr>)
    decreases es, 0
  {
    es == [] || (Pure(es[0]) && PureAll(es[1..]))
  }

  /** The need of a pure expression grows with its depth, two temporaries a level, whatever its size. */
  lemma {:induction false} NeedByDepth(e: Expr)
    requires Pure(e)
    ensures Need(e) <= 1 + 2 * Depth(e)
    decreases e, 1
  {
    if e.Op? {
      NeedAllByDepth(e.args);
    }
  }

  lemma {:induction false} NeedAllByDepth(es: seq<Expr>)
    requires PureAll(es)
    ensures NeedAll(es) <= |es| + 2 * DepthAll(es)
    decreases es, 0
  {
    if es != [] {
      NeedByDepth(es[0]);
      NeedAllByDepth(es[1..]);
    }
  }

  // ----- sums of loads -----

  /** mem[a0] + mem[a1] + ..., associated to the left as the parser does. */
  function SumOfLoads(addrs: seq<Int32>): Expr
    requires addrs != []
  {
    var n := |addrs| - 1;
    if n == 0 then MemLoad(Lit(addrs[0])) else Op(Plus, [SumOfLoads(addrs[..n]), MemLoad(Lit(addrs[n]))])
  }

  lemma {:induction false} SumFoldsNot(addrs: seq<Int32>)
    requires addrs != []
    ensures Fold(SumOfLoads(addrs)).None?
    decreases |addrs|
  {
    if |addrs| > 1 {
      SumFoldsNot(addrs[..|addrs| - 1]);
    }
  }

  /** A sum of two loads or more needs four temporaries, however many terms it has. */
  lemma {:induction false} SumNeedsFour(addrs: seq<Int32>)
    requires addrs != []
    ensures Need(SumOfLoads(addrs)) == if |addrs| == 1 then 2 else 4
    decreases |addrs|
  {
    var n := |addrs| - 1;
    SumFoldsNot(addrs);
    if n > 0 {
      var first, last := SumOfLoads(addrs[..n]), MemLoad(Lit(addrs[n]));
      SumNeedsFour(addrs[..n]);
      var es := [first, last];
      assert es[1..] == [last] && es[1..][1..] == [];
      assert NeedAll(es[1..]) == Max(Need(last), Held(last) + NeedAll(es[1..][1..])) == 2;
      assert NeedAll(es) == Max(Need(first), Held(first) + 2);
      assert Held(first) == if n == 1 then 2 else 1;
    }
  }
}
