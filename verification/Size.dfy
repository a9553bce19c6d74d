/** How many instruction words a program takes, read off the source, and so which programs fit. */
module Size {
  import opened Words
  import opened Lang
  import opened Sema
  import opened Lowering
  import opened Temporaries
  import opened Layout
  import opened Compiler

  // ----- expressions -----

  /** One word for each literal, operator and load, unless an operator folds, and for each call one for every argument,
      one for itself and one for its result. */
  function ExprWords(e: Expr): nat
    decreases e, 1
  {
    match e
    case Lit(_) => 1
    case Op(_, args) => if Folds(e) then 1 else AllWords(args) + 1
    case MemLoad(a) => ExprWords(a) + 1
    case CallF(_, args) => AllWords(args) + |args| + 2
    case _ => 0
  }

  function AllWords(es: seq<Expr>): nat
    decreases es, 0
  {
    if es == [] then 0 else ExprWords(es[0]) + AllWords(es[1..])
  }

  /** Where arguments may come from, so that no move into the func window is saved. */
  ghost predicate Outside(tab: seq<Binding>) {
    forall x :: Lookup(tab, x) < FUNC_REG_BASE
  }

  predicate OutsideAll(regs: seq<int>) {
    forall i :: 0 <= i < |regs| ==> regs[i] < FUNC_REG_BASE || regs[i] >= TMP_BASE
  }

  lemma {:induction false} MovsSize(regs: seq<int>)
    requires OutsideAll(regs) && |regs| <= FUNC_MAX_VARS
    ensures |Movs(FUNC_REG_BASE, regs)| == |regs|
    decreases |regs|
  {
    if regs != [] {
      MovsSize(regs[..|regs| - 1]);
    }
  }

  lemma RegOutside(tab: seq<Binding>, e: Expr, t: int)
    requires TMP_BASE <= t <= TMP_ONE && LowerExpr(tab, e, t).Good? && Outside(tab)
    ensures var r := LowerExpr(tab, e, t).reg; r < FUNC_REG_BASE || r >= TMP_BASE
  {
    LowerShape(tab, e, t);
  }

  lemma {:induction false} ExprSize(fs: seq<Func>, tab: seq<Binding>, e: Expr, t: int)
    requires TMP_BASE <= t <= TMP_ONE && LowerExpr(tab, e, t).Good? && ExprOk(fs, tab, e) && FewArgs(fs) && (HasCall(e) ==> Outside(tab))
    ensures |LowerExpr(tab, e, t).code| == ExprWords(e)
    decreases e, 1
  {
    hide Folds, Fold, AluInstr, Outside, FewArgs;
    match e
    case Op(op, args) => if !Folds(e) { AllSize(fs, tab, args, t); }
    case MemLoad(a) => ExprSize(fs, tab, a, t);
    case CallF(f, args) =>
      AllSize(fs, tab, args, t);
      ArgsFew(fs, f);
      MovsSize(LowerAll(tab, args, t).regs);
    case _ =>
  }

  lemma ArgsFew(fs: seq<Func>, f: string)
    requires FewArgs(fs) && FindFunc(fs, f) < |fs|
    ensures |fs[FindFunc(fs, f)].params| <= FUNC_MAX_VARS
  {
  }

  lemma {:induction false} AllSize(fs: seq<Func>, tab: seq<Binding>, es: seq<Expr>, t: int)
    requires TMP_BASE <= t <= TMP_ONE && LowerAll(tab, es, t).GoodAll? && ExprsOk(fs, tab, es) && FewArgs(fs) && (HasCallAny(es) ==> Outside(tab))
    ensures |LowerAll(tab, es, t).code| == AllWords(es) && (Outside(tab) ==> OutsideAll(LowerAll(tab, es, t).regs))
    decreases es, 0
  {
    hide LowerExpr, ExprOk, HasCall, ExprWords, Outside, FewArgs;
    if es != [] {
      ExprSize(fs, tab, es[0], t);
      LowerShape(tab, es[0], t);
      AllSize(fs, tab, es[1..], LowerExpr(tab, es[0], t).next);
      if Outside(tab) { RegOutside(tab, es[0], t); }
    }
  }

  // ----- statements -----

  /** Assigning a variable to itself takes no word; any other assignment ends in a move. */
  function SetWords(x: string, e: Expr): nat {
    ExprWords(e) + if e == Var(x) then 0 else 1
  }

  /** `tab` only matters for a kernel's nineteenth variable, which is where a returned value goes. */
  function StmtWords(tab: seq<Binding>, s: Stmt): nat
    decreases s, 1
  {
    match s
    case Decl(x, e) => SetWords(x, e)
    case Assign(x, e) => SetWords(x, e)
    case Store(addr, val) => ExprWords(val) + ExprWords(addr) + 1
    case If(cond, thn, els) => (if cond.Op? then AllWords(cond.args) else 0) + BlockWords(tab, thn) + BlockWords(tab, els) + 5
    case For(x, init, bound, body) => SetWords(x, init) + ExprWords(bound) + BlockWords(tab, body) + 5
    case Return(None) => 1
    case Return(Some(e)) => ExprWords(e) + if e.Var? && Lookup(tab, e.name) == FUNC_REG_RET then 1 else 2
  }

  function BlockWords(tab: seq<Binding>, b: Block): nat
    decreases b, 0
  {
    if b.End? then 0 else StmtWords(tab, b.head) + BlockWords(tab, b.tail)
  }

  ghost predicate Apart(tab: seq<Binding>) {
    && (forall x :: Lookup(tab, x) <= FUNC_REG_RET)
    && (forall x, y :: Lookup(tab, x) == Lookup(tab, y) != -1 ==> x == y)
  }

  lemma SetSize(fs: seq<Func>, tab: seq<Binding>, x: string, e: Expr)
    requires LowerSet(tab, x, e).Some? && Lookup(tab, x) > 0 && ExprOk(fs, tab, e) && FewArgs(fs) && Apart(tab) && (HasCall(e) ==> Outside(tab))
    ensures |LowerSet(tab, x, e).value| == SetWords(x, e)
  {
    ExprSize(fs, tab, e, TMP_BASE);
    LowerShape(tab, e, TMP_BASE);
  }

  lemma PairSize(fs: seq<Func>, tab: seq<Binding>, a: Expr, b: Expr)
    requires LowerAll(tab, [a, b], TMP_BASE).GoodAll? && ExprOk(fs, tab, a) && ExprOk(fs, tab, b) && FewArgs(fs)
    requires HasCall(a) || HasCall(b) ==> Outside(tab)
    ensures |LowerAll(tab, [a, b], TMP_BASE).code| == ExprWords(a) + ExprWords(b)
  {
    hide ExprOk, HasCall, ExprWords, Outside, FewArgs, LowerExpr;
    PairLowering(tab, a, b, TMP_BASE);
    ExprSize(fs, tab, a, TMP_BASE);
    LowerShape(tab, a, TMP_BASE);
    ExprSize(fs, tab, b, LowerExpr(tab, a, TMP_BASE).next);
  }

  lemma {:induction false} StmtSize(fs: seq<Func>, tab: seq<Binding>, s: Stmt)
    requires LowerStmt(tab, s).Some? && Named(fs, tab, s) && FewArgs(fs) && Apart(tab) && (StmtHasCall(s) ==> Outside(tab))
    ensures |LowerStmt(tab, s).value| == StmtWords(tab, s)
    decreases s, 1
  {
    hide LowerSet, LowerExpr, ExprOk, HasCall, Outside, FewArgs, Apart, ExprWords, SetWords;
    match s
    case Decl(x, e) => SetSize(fs, tab, x, e);
    case Assign(x, e) => SetSize(fs, tab, x, e);
    case Store(addr, val) => PairSize(fs, tab, val, addr);
    case If(cond, thn, els) =>
      CondCalls(cond);
      AllSize(fs, tab, cond.args, TMP_BASE);
      BlockSize(fs, tab, thn);
      BlockSize(fs, tab, els);
    case For(x, init, bound, body) =>
      SetSize(fs, tab, x, init);
      ExprSize(fs, tab, bound, TMP_BASE);
      BlockSize(fs, tab, body);
    case Return(None) =>
    case Return(Some(e)) => ReturnSize(fs, tab, e);
  }

  lemma ReturnSize(fs: seq<Func>, tab: seq<Binding>, e: Expr)
    requires LowerStmt(tab, Return(Some(e))).Some? && ExprOk(fs, tab, e) && FewArgs(fs) && Apart(tab) && (HasCall(e) ==> Outside(tab))
    ensures |LowerStmt(tab, Return(Some(e))).value| == StmtWords(tab, Return(Some(e)))
  {
    ExprSize(fs, tab, e, TMP_BASE);
    LowerShape(tab, e, TMP_BASE);
  }

  lemma {:induction false} BlockSize(fs: seq<Func>, tab: seq<Binding>, b: Block)
    requires LowerBlock(tab, b).Some? && NamedBlock(fs, tab, b) && FewArgs(fs) && Apart(tab) && (BlockHasCall(b) ==> Outside(tab))
    ensures |LowerBlock(tab, b).value| == BlockWords(tab, b)
    decreases b, 0
  {
    hide LowerStmt, Named, FewArgs, Apart, Outside, StmtHasCall, StmtWords;
    if b.Seq? {
      StmtSize(fs, tab, b.head);
      BlockSize(fs, tab, b.tail);
    }
  }

  // ----- the end of a kernel -----

  /** The last statement that takes a word is `return;`. */
  predicate EndsInReturn(tab: seq<Binding>, b: Block) {
    b.Seq? && if BlockWords(tab, b.tail) > 0 then EndsInReturn(tab, b.tail) else b.head == Return(None)
  }

  lemma LastOfStmt(tab: seq<Binding>, s: Stmt)
    requires LowerStmt(tab, s).Some? && LowerStmt(tab, s).value != []
    ensures var c := LowerStmt(tab, s).value; c[|c| - 1].Ret? <==> s == Return(None)
  {
    hide LowerExpr, LowerAll, LowerBlock;
    match s
    case Decl(x, e) => LastOfSet(tab, x, e);
    case Assign(x, e) => LastOfSet(tab, x, e);
    case Return(None) =>
    case _ =>
  }

  lemma LastOfSet(tab: seq<Binding>, x: string, e: Expr)
    requires LowerSet(tab, x, e).Some? && LowerSet(tab, x, e).value != []
    ensures var c := LowerSet(tab, x, e).value; !c[|c| - 1].Ret?
  {
  }

  lemma {:induction false} LastOfBlock(fs: seq<Func>, tab: seq<Binding>, b: Block)
    requires LowerBlock(tab, b).Some? && NamedBlock(fs, tab, b) && FewArgs(fs) && Apart(tab) && (BlockHasCall(b) ==> Outside(tab))
    ensures var c := LowerBlock(tab, b).value; c != [] ==> (c[|c| - 1].Ret? <==> EndsInReturn(tab, b))
    decreases b, 0
  {
    hide LowerStmt, Named, FewArgs, Apart, Outside, StmtHasCall, StmtWords;
    if b.Seq? {
      LastOfBlock(fs, tab, b.tail);
      BlockSize(fs, tab, b.tail);
      if LowerStmt(tab, b.head).value != [] { LastOfStmt(tab, b.head); }
    }
  }

  // ----- whole programs -----

  /** One load a parameter, the body, and a RET unless the body ends in one. */
  function KernelWords(tab: seq<Binding>, k: Func): nat {
    |k.params| + BlockWords(tab, k.body) + if EndsInReturn(tab, k.body) then 0 else 1
  }

  function FuncsWords(tabs: seq<seq<Binding>>, fs: seq<Func>): nat
    requires |tabs| == |fs|
  {
    if fs == [] then 0 else BlockWords(tabs[0], fs[0].body) + FuncsWords(tabs[1..], fs[1..])
  }

  lemma {:induction false} LoadsSize(tab: seq<Binding>, params: seq<string>, i: nat)
    requires i <= |params|
    ensures |LoadParams(tab, params, i)| == |params| - i
    ensures forall k :: 0 <= k < |LoadParams(tab, params, i)| ==> LoadParams(tab, params, i)[k].Ldr?
    decreases |params| - i
  {
    if i < |params| {
      LoadsSize(tab, params, i + 1);
    }
  }

  lemma KernelSize(p: Program, tab: seq<Binding>, k: Func)
    requires GoodBody(p.funcs, tab, k, 1, KernelMax(p.funcs)) && FewArgs(p.funcs) && LowerKernel(tab, k).Some?
    ensures |LowerKernel(tab, k).value| == KernelWords(tab, k)
  {
    hide LowerBlock, NamedBlock, FewArgs, BlockWords, EndsInReturn, Lookup, BlockHasCall, Outside, Apart;
    TableApart(p.funcs, tab, k.body);
    BlockSize(p.funcs, tab, k.body);
    LastOfBlock(p.funcs, tab, k.body);
    LoadsSize(tab, k.params, 0);
    NoEmptyReturn(tab, k.body);
    var loads, body := LoadParams(tab, k.params, 0), LowerBlock(tab, k.body).value;
    assert body == [] ==> loads + body == loads;
  }

  lemma {:induction false} NoEmptyReturn(tab: seq<Binding>, b: Block)
    ensures BlockWords(tab, b) == 0 ==> !EndsInReturn(tab, b)
  {
    assert StmtWords(tab, Return(None)) == 1;
  }

  // Without funcs there are no calls.

  lemma {:induction false} NoCalls(tab: seq<Binding>, e: Expr)
    requires ExprOk([], tab, e)
    ensures !HasCall(e)
    decreases e, 1
  {
    match e
    case Op(_, args) => NoCallsAll(tab, args);
    case MemLoad(a) => NoCalls(tab, a);
    case _ =>
  }

  lemma {:induction false} NoCallsAll(tab: seq<Binding>, es: seq<Expr>)
    requires ExprsOk([], tab, es)
    ensures !HasCallAny(es)
    decreases es, 0
  {
    if es != [] {
      NoCalls(tab, es[0]);
      NoCallsAll(tab, es[1..]);
    }
  }

  lemma {:induction false} StmtNoCalls(tab: seq<Binding>, s: Stmt)
    requires Named([], tab, s)
    ensures !StmtHasCall(s)
    decreases s, 1
  {
    match s
    case Decl(_, e) => NoCalls(tab, e);
    case Assign(_, e) => NoCalls(tab, e);
    case Store(a, v) => NoCalls(tab, a); NoCalls(tab, v);
    case If(cond, thn, els) => NoCallsAll(tab, cond.args); BlockNoCalls(tab, thn); BlockNoCalls(tab, els);
    case For(_, init, bound, body) => NoCalls(tab, init); NoCalls(tab, bound); BlockNoCalls(tab, body);
    case Return(r) => if r.Some? { NoCalls(tab, r.value); }
  }

  lemma {:induction false} BlockNoCalls(tab: seq<Binding>, b: Block)
    requires NamedBlock([], tab, b)
    ensures !BlockHasCall(b)
    decreases b, 0
  {
    if b.Seq? {
      StmtNoCalls(tab, b.head);
      BlockNoCalls(tab, b.tail);
    }
  }

  /** A kernel with calls keeps below the func window, and no variable is beyond R19. */
  lemma TableApart(fs: seq<Func>, tab: seq<Binding>, b: Block)
    requires GoodTable(tab, 1, KernelMax(fs)) && NamedBlock(fs, tab, b)
    ensures Apart(tab) && (BlockHasCall(b) ==> Outside(tab))
  {
    hide NamedBlock, Lookup;
    if fs == [] { BlockNoCalls(tab, b); }
  }

  lemma FuncSize(p: Program, tab: seq<Binding>, f: Func)
    requires GoodFunc(p.funcs, tab, f) && FewArgs(p.funcs) && LowerBlock(tab, f.body).Some?
    ensures |LowerBlock(tab, f.body).value| == BlockWords(tab, f.body)
  {
    hide Lookup, NamedBlock, LowerBlock;
    BlockSize(p.funcs, tab, f.body);
  }

  lemma {:induction false} FuncsSize(p: Program, tabs: seq<seq<Binding>>, fs: seq<Func>, at: nat)
    requires |tabs| == |fs| && FewArgs(p.funcs) && LowerFuncs(tabs, fs, at).Some?
    requires forall k :: 0 <= k < |fs| ==> GoodFunc(p.funcs, tabs[k], fs[k])
    ensures |LowerFuncs(tabs, fs, at).value.0| == FuncsWords(tabs, fs)
    decreases |fs|
  {
    hide GoodFunc, FewArgs, LowerBlock, BlockWords;
    if fs != [] {
      FuncSize(p, tabs[0], fs[0]);
      FuncsSize(p, tabs[1..], fs[1..], at + |LowerBlock(tabs[0], fs[0].body).value|);
    }
  }

  /** Which accepted programs compile, by looking at the source alone: no comparison stands outside the condition of an `if`, no
      statement needs more than the eight temporaries, and the words of kernel and funcs number at most 256. */
  lemma CompilesExactly(p: Program)
    requires p.kernels != [] && Check(p).Some?
    ensures var (ktabs, ftabs) := Check(p).value;
            var fits := SoundBlock(ktabs[0], p.kernels[0].body) && BlockNeed(p.kernels[0].body) <= 8
                        && forall k :: 0 <= k < |p.funcs| ==> SoundBlock(ftabs[k], p.funcs[k].body) && BlockNeed(p.funcs[k].body) <= 8;
            var words := KernelWords(ktabs[0], p.kernels[0]) + FuncsWords(ftabs, p.funcs);
            && (Compile(p).Some? <==> fits && words <= 256)
            && (Compile(p).Some? ==> |Compile(p).value| == words)
  {
    hide Check, LowerKernel, LowerFuncs, SoundBlock, BlockNeed, KernelWords, FuncsWords, GoodFunc, GoodBody, FewArgs;
    CompileExact(p);
    AcceptedArgs(p);
    AcceptedKernel(p);
    var (ktabs, ftabs) := Check(p).value;
    forall k | 0 <= k < |p.funcs|
      ensures GoodFunc(p.funcs, ftabs[k], p.funcs[k])
    {
      AcceptedFunc(p, k);
    }
    if LowerProgram(ktabs[0], ftabs, p).Some? {
      KernelSize(p, ktabs[0], p.kernels[0]);
      FuncsSize(p, ftabs, p.funcs, |LowerKernel(ktabs[0], p.kernels[0]).value|);
    }
  }
}
