/** Compiler correctness: a lane started on the emitted words ends exactly as the source program says. */
module Correctness {
  import opened Words
  import opened Isa
  import opened Lang
  import opened Sema
  import opened Lowering
  import opened Temporaries
  import opened Footprint
  import opened Simulation
  import opened Preservation
  import opened Layout
  import opened Compiler

  // ----- the side conditions on the source, all decidable by looking at it -----

  /** Every expression keeps its temporaries clear of calls, and its literals fit a CONST. */
  predicate Clean(fs: seq<Func>, s: Stmt)
    decreases s, 1
  {
    match s
    case Decl(_, e) => Fine(fs, e, TMP_BASE)
    case Assign(_, e) => Fine(fs, e, TMP_BASE)
    case Store(addr, val) => FineAll(fs, [val, addr], TMP_BASE)
    case If(cond, thn, els) => cond.Op? && FineAll(fs, cond.args, TMP_BASE) && CleanBlock(fs, thn) && CleanBlock(fs, els)
    case For(_, init, bound, body) => Fine(fs, init, TMP_BASE) && Fine(fs, bound, TMP_BASE) && CleanBlock(fs, body)
    case Return(r) => r.Some? ==> Fine(fs, r.value, TMP_BASE)
  }

  predicate CleanBlock(fs: seq<Func>, b: Block)
    decreases b, 0
  {
    b.Seq? ==> Clean(fs, b.head) && CleanBlock(fs, b.tail)
  }

  predicate CleanProgram(p: Program) {
    p.kernels != [] && CleanBlock(p.funcs, p.kernels[0].body)
    && forall k :: 0 <= k < |p.funcs| ==> CleanBlock(p.funcs, p.funcs[k].body)
  }

  lemma {:induction false} FineFromClean(fs: seq<Func>, tab: seq<Binding>, s: Stmt)
    requires Named(fs, tab, s) && Clean(fs, s)
    ensures FineStmt(fs, tab, s)
    decreases s, 1
  {
    hide Fine, FineAll, ExprOk, Lookup;
    match s
    case If(_, thn, els) => FineBlockFromClean(fs, tab, thn); FineBlockFromClean(fs, tab, els);
    case For(_, _, _, body) => FineBlockFromClean(fs, tab, body);
    case _ =>
  }

  lemma {:induction false} FineBlockFromClean(fs: seq<Func>, tab: seq<Binding>, b: Block)
    requires NamedBlock(fs, tab, b) && CleanBlock(fs, b)
    ensures FineBlock(fs, tab, b)
    decreases b, 0
  {
    if b.Seq? {
      FineFromClean(fs, tab, b.head);
      FineBlockFromClean(fs, tab, b.tail);
    }
  }

  /** The world of a compiled clean program meets everything the simulation asks for. */
  lemma CompiledWorldOk(p: Program, ids: Ids)
    requires Compile(p).Some? && CleanProgram(p)
    ensures var w, ktab := WorldOf(p, ids), KernelTable(p);
            WorldOk(w) && Scoped(w, 1, ktab) && FineBlock(w.fs, ktab, p.kernels[0].body) && CodeAt(w, 0, KernelCode(p, ktab))
  {
    hide LowerBlock, LowerKernel, LowerProgram, Check, Compile, Link, CodeAt, FineBlock, NamedBlock, CleanBlock, EndsInValue, BlockHasCall, Lookup;
    var w, ktab, words := WorldOf(p, ids), KernelTable(p), Compile(p).value;
    CompiledWorld(p, ids);
    CodePlaced(p, w, ktab, words);
    AcceptedKernel(p);
    FineBlockFromClean(p.funcs, ktab, p.kernels[0].body);
    forall k | 0 <= k < |w.fs|
      ensures FuncOk(w, k)
    {
      AcceptedFunc(p, k);
      FineBlockFromClean(p.funcs, w.tabs[k], p.funcs[k].body);
      AcceptedArgs(p);
      FuncRegion(p.funcs, w.tabs[k], p.funcs[k]);
      FuncSpares(p.funcs, w.tabs[k], p.funcs[k]);
    }
  }

  lemma FuncSpares(fs: seq<Func>, tab: seq<Binding>, f: Func)
    requires GoodFunc(fs, tab, f) && LowerBlock(tab, f.body).Some?
    ensures Spares(LowerBlock(tab, f.body).value, BlockNeed(f.body))
  {
    hide LowerBlock, NamedBlock, BlockHasCall, EndsInValue, GoodTable, BlockNeed, Written;
    GoodRange(tab, FUNC_REG_BASE, FUNC_LAST);
    forall r | TMP_BASE + BlockNeed(f.body) <= r < TMP_ONE
      ensures !Written(LowerBlock(tab, f.body).value, r)
    {
      BlockWrites(fs, tab, f.body, r);
    }
  }

  // ----- parameters -----

  /** Parameter `i` is the word at PARAM_BASE + i. */
  function ParamValue(mem: Memory, i: int): Int32 {
    S32(Load(mem, U32(PARAM_BASE + i)))
  }

  function ParamValues(n: nat, mem: Memory): (vs: seq<Int32>)
    ensures |vs| == n && forall i :: 0 <= i < n ==> vs[i] == ParamValue(mem, i)
  {
    if n == 0 then [] else ParamValues(n - 1, mem) + [ParamValue(mem, n - 1)]
  }

  function ParamEnv(params: seq<string>, mem: Memory): Env {
    Bind(params, ParamValues(|params|, mem))
  }

  /** The first `n` parameters are in R1 and the registers after it. */
  ghost predicate Loaded(w: World, s: Lane, n: nat, mem: Memory) {
    forall r :: 1 <= r <= n ==> Read(w.ids, s, r) == Load(mem, U32(PARAM_BASE + r - 1))
  }

  lemma StepParam(w: World, s: Lane, i: nat) returns (s': Lane)
    requires CodeAt(w, s.pc, [Ldr(1 + i, 0, PARAM_BASE + i)]) && |s.regs| == 32 && !s.halted && 1 + i <= 28
    requires Loaded(w, s, i, s.mem)
    ensures Runs(w, s, 1, s') && s'.pc == s.pc + 1 && s'.mem == s.mem && s'.stack == s.stack && |s'.regs| == 32 && !s'.halted
    ensures Loaded(w, s', i + 1, s.mem)
  {
    hide CodeAt, Load, U32;
    s' := One(w, s, Ldr(1 + i, 0, PARAM_BASE + i));
    assert Read(w.ids, s, 0) == 0;
    forall r | 1 <= r <= i + 1
      ensures Read(w.ids, s', r) == Load(s.mem, U32(PARAM_BASE + r - 1))
    {
      if r <= i {
        assert Read(w.ids, s', r) == Read(w.ids, s, r);
      } else {
        assert PARAM_BASE + r - 1 == 0 + (PARAM_BASE + i);
      }
    }
  }

  predicate Consecutive(tab: seq<Binding>, params: seq<string>) {
    |params| <= MAX_VARS && forall j :: 0 <= j < |params| ==> Lookup(tab, params[j]) == 1 + j
  }

  lemma {:induction false} SimParams(w: World, tab: seq<Binding>, params: seq<string>, i: nat, s: Lane)
    returns (n: nat, s': Lane)
    requires i <= |params| && CodeAt(w, s.pc, LoadParams(tab, params, i)) && |s.regs| == 32 && !s.halted
    requires Consecutive(tab, params) && Loaded(w, s, i, s.mem)
    ensures Runs(w, s, n, s') && s'.pc == s.pc + |LoadParams(tab, params, i)| && s'.mem == s.mem && s'.stack == s.stack
    ensures |s'.regs| == 32 && !s'.halted && Loaded(w, s', |params|, s.mem)
    decreases |params| - i
  {
    hide CodeAt, Loaded, Runs;
    if i == |params| {
      n, s' := 0, s;
      RunsNone(w, s);
    } else {
      CodeSplit(w, s.pc, [Ldr(Lookup(tab, params[i]), 0, PARAM_BASE + i)], LoadParams(tab, params, i + 1));
      var s1 := StepParam(w, s, i);
      var n2, s2 := SimParams(w, tab, params, i + 1, s1);
      Join(w, s, 1, s1, n2, s2);
      n, s' := 1 + n2, s2;
    }
  }

  lemma RunsNone(w: World, s: Lane)
    ensures Runs(w, s, 0, s)
  {
  }

  // ----- the end of the kernel -----

  /** Expression code never ends in RET. */
  lemma ExprLast(tab: seq<Binding>, e: Expr, t: int)
    requires LowerExpr(tab, e, t).Good? && t >= TMP_BASE
    ensures var code := LowerExpr(tab, e, t).code; code != [] ==> !code[|code| - 1].Ret?
  {
    hide LowerAll, Movs, Lookup, Folds;
  }

  /** The only statement whose code ends in RET is a bare `return`. */
  lemma StmtLast(tab: seq<Binding>, s: Stmt)
    requires LowerStmt(tab, s).Some? && s != Return(None)
    ensures var code := LowerStmt(tab, s).value; code != [] ==> !code[|code| - 1].Ret?
  {
    hide LowerAll, LowerExpr, LowerBlock, Lookup;
    match s
    case Decl(_, e) => ExprLast(tab, e, TMP_BASE);
    case Assign(_, e) => ExprLast(tab, e, TMP_BASE);
    case _ =>
  }

  /** Code that ends in RET belongs to a block that never ends normally, even where
      statements without any code follow the `return`. */
  lemma {:induction false} RetNeverNormal(depth: nat, fs: seq<Func>, ids: Ids, tab: seq<Binding>, b: Block, env: Env, mem: Memory, fuel: nat)
    requires LowerBlock(tab, b).Some?
    requires var code := LowerBlock(tab, b).value; code != [] && code[|code| - 1].Ret?
    ensures !RunBlock(depth, fs, ids, b, env, mem, fuel).Normal?
    decreases b
  {
    hide LowerStmt;
    var rest := LowerBlock(tab, b.tail).value;
    var r := RunStmt(depth, fs, ids, b.head, env, mem, fuel);
    if rest == [] {
      if b.head != Return(None) {
        StmtLast(tab, b.head);
      }
      assert r == Exit(env, mem);
    } else if r.Normal? {
      RetNeverNormal(depth, fs, ids, tab, b.tail, r.env, r.mem, fuel);
    }
  }

  // ----- the theorems -----

  /** What the kernel means on the memory it is launched with. */
  function Meaning(p: Program, ids: Ids, mem: Memory, fuel: nat): Outcome
    requires p.kernels != []
  {
    RunBlock(1, p.funcs, ids, p.kernels[0].body, ParamEnv(p.kernels[0].params, mem), mem, fuel)
  }

  predicate Ended(r: Outcome) {
    r.Normal? || r.Exit?
  }

  /** From the first word to the body: the parameters are in their registers. */
  lemma Launch(p: Program, ids: Ids, s: Lane) returns (n: nat, s': Lane)
    requires Compile(p).Some? && CleanProgram(p) && Start(s)
    ensures var w, tab, k := WorldOf(p, ids), KernelTable(p), p.kernels[0];
            && Runs(w, s, n, s') && s'.mem == s.mem && Context(w, 1, tab, ParamEnv(k.params, s.mem), s')
            && LowerBlock(tab, k.body).Some? && s'.pc == |LoadParams(tab, k.params, 0)|
            && KernelCode(p, tab) == CloseKernel(LoadParams(tab, k.params, 0) + LowerBlock(tab, k.body).value)
            && CodeAt(w, s'.pc, LowerBlock(tab, k.body).value)
  {
    hide LowerBlock, LowerProgram, Check, WorldOk, Scoped, Link, LoadParams, CodeAt, Runs, Lookup, Agrees;
    var w, tab, k := WorldOf(p, ids), KernelTable(p), p.kernels[0];
    CompiledWorld(p, ids);
    CodePlaced(p, w, tab, Compile(p).value);
    CompiledWorldOk(p, ids);
    AcceptedKernel(p);
    var loads, body := LoadParams(tab, k.params, 0), LowerBlock(tab, k.body).value;
    if CloseKernel(loads + body) != loads + body {
      CodeSplit(w, 0, loads + body, [Ret]);
    }
    CodeSplit(w, 0, loads, body);
    n, s' := SimParams(w, tab, k.params, 0, s);
    ParamsAgree(w, tab, k.params, s.mem, s');
  }

  lemma ParamsAgree(w: World, tab: seq<Binding>, params: seq<string>, mem: Memory, s: Lane)
    requires Consecutive(tab, params) && Loaded(w, s, |params|, mem)
    ensures Agrees(w, tab, ParamEnv(params, mem), s)
  {
    hide Read, Load, Lookup, Agrees, Bind, U32, S32;
    var vs := ParamValues(|params|, mem);
    forall j | 0 <= j < |vs|
      ensures Read(w.ids, s, 1 + j) == U32(vs[j])
    {
      var word := Load(mem, U32(PARAM_BASE + j));
      WordRound(word);
      assert Read(w.ids, s, 1 + j) == word;
    }
    BindAgrees(w, tab, params, vs, 1, s);
  }

  lemma WordRound(x: Word)
    ensures U32(S32(x)) == x
  {
    U32Of(x);
  }

  /** Where the run of the kernel body ends, in terms of the whole program. */
  lemma RunKernel(p: Program, ids: Ids, s: Lane, fuel: nat) returns (n: nat, s': Lane)
    requires Compile(p).Some? && CleanProgram(p) && Start(s)
    ensures var w, tab, out := WorldOf(p, ids), KernelTable(p), Meaning(p, ids, s.mem, fuel);
            && Runs(w, s, n, s')
            && (Ended(out) ==> s'.halted && s'.mem == out.mem && |s'.regs| == 32 && Agrees(w, tab, out.env, s'))
            && (out.Result? ==> n >= 1 && s'.mem == out.mem && Start(s'))
            && (out.Timeout? ==> n >= fuel && !s'.halted)
  {
    hide LowerBlock, LowerProgram, Check, WorldOk, Scoped, Link, LoadParams, CodeAt, Runs, Lookup, Agrees, RunBlock, FineBlock, Carried, ParamEnv, KernelTable, CloseKernel;
    var w, tab, k := WorldOf(p, ids), KernelTable(p), p.kernels[0];
    CompiledWorldOk(p, ids);
    var n1, s1 := Launch(p, ids, s);
    var env, body := ParamEnv(k.params, s.mem), LowerBlock(tab, k.body).value;
    var n2, s2 := SimBlock(w, 1, tab, k.body, env, s1, fuel);
    Join(w, s, n1, s1, n2, s2);
    n, s' := n1 + n2, s2;
    if Meaning(p, ids, s.mem, fuel).Normal? {
      ClosedBody(p, w.fs, ids, env, s.mem, fuel);
      var s3 := CloseRun(w, LoadParams(tab, k.params, 0) + body, s2);
      Join(w, s, n, s2, 1, s3);
      HaltKeeps(w, tab, Meaning(p, ids, s.mem, fuel).env, s2);
      n, s' := n + 1, s3;
    }
  }

  lemma HaltKeeps(w: World, tab: seq<Binding>, env: Env, s: Lane)
    requires Agrees(w, tab, env, s)
    ensures Agrees(w, tab, env, s.(halted := true))
  {
  }

  lemma KernelLoads(p: Program)
    requires Compile(p).Some?
    ensures var loads := LoadParams(KernelTable(p), p.kernels[0].params, 0); loads == [] || loads[|loads| - 1].Ldr?
  {
    hide Check, LowerProgram, NamedBlock, Lookup, GoodTable, Straight, LoadParams;
    AcceptedKernel(p);
    LoadsStraight(p.funcs, true, KernelTable(p), p.kernels[0].params, 0);
  }

  /** A kernel whose body ends normally gets a RET of its own. */
  lemma ClosedBody(p: Program, fs: seq<Func>, ids: Ids, env: Env, mem: Memory, fuel: nat)
    requires Compile(p).Some? && p.kernels != [] && LowerBlock(KernelTable(p), p.kernels[0].body).Some?
    requires RunBlock(1, fs, ids, p.kernels[0].body, env, mem, fuel).Normal?
    ensures var loads, body := LoadParams(KernelTable(p), p.kernels[0].params, 0), LowerBlock(KernelTable(p), p.kernels[0].body).value;
            CloseKernel(loads + body) == loads + body + [Ret]
  {
    hide Compile, LowerBlock, LoadParams, RunBlock, KernelTable;
    KernelLoads(p);
    var body := LowerBlock(KernelTable(p), p.kernels[0].body).value;
    if body != [] && body[|body| - 1].Ret? {
      RetNeverNormal(1, fs, ids, KernelTable(p), p.kernels[0].body, env, mem, fuel);
      assert false;
    }
  }

  /** Behind the body there is a RET. */
  lemma CloseRun(w: World, code: seq<Instr>, s: Lane) returns (s': Lane)
    requires CodeAt(w, 0, code + [Ret]) && s.pc == |code| && !s.halted
    ensures Runs(w, s, 1, s') && s' == s.(halted := true)
  {
    hide CodeAt;
    CodeSplit(w, 0, code, [Ret]);
    s' := One(w, s, Ret);
  }

  lemma FinalRegs(w: World, tab: seq<Binding>, env: Env, s: Lane)
    requires Agrees(w, tab, env, s) && |s.regs| == 32 && GoodTable(tab, 1, MAX_VARS)
    ensures forall x :: x in env ==> 0 < Lookup(tab, x) < 32 && s.regs[Lookup(tab, x)] == U32(env[x])
  {
    hide Lookup, U32;
  }

  lemma KernelTableGood(p: Program)
    requires Compile(p).Some?
    ensures GoodTable(KernelTable(p), 1, MAX_VARS)
  {
    hide Check, LowerProgram, NamedBlock, Lookup;
    AcceptedKernel(p);
  }

  /** Correctness. If the kernel ends, at the end of its body or by `return;`, then a lane started on the
      emitted words reaches RET, with the memory and in every variable's register the value the source says. */
  lemma KernelCorrect(p: Program, ids: Ids, s: Lane, fuel: nat) returns (n: nat)
    requires Compile(p).Some? && CleanProgram(p) && Start(s) && Ended(Meaning(p, ids, s.mem, fuel))
    ensures var out, s' := Meaning(p, ids, s.mem, fuel), Isa.Run(ids, DecodeAll(Compile(p).value), s, n);
            && s'.halted && s'.mem == out.mem && |s'.regs| == |s.regs|
            && forall x :: x in out.env ==> 0 < Lookup(KernelTable(p), x) < |s'.regs| && s'.regs[Lookup(KernelTable(p), x)] == U32(out.env[x])
  {
    hide Compile, Meaning, KernelTable, Lookup, Agrees, GoodTable, Isa.Run, U32;
    var w := WorldOf(p, ids);
    WordsDecode(p, ids);
    CompiledWorld(p, ids);
    var n', s' := RunKernel(p, ids, s, fuel);
    n := n';
    KernelTableGood(p);
    FinalRegs(w, KernelTable(p), Meaning(p, ids, s.mem, fuel).env, s');
  }

  /** Divergence. If the kernel does not end, however much fuel it is given, then the lane never halts. */
  lemma KernelDiverges(p: Program, ids: Ids, s: Lane, n: nat)
    requires Compile(p).Some? && CleanProgram(p) && Start(s)
    requires Meaning(p, ids, s.mem, n).Timeout?
    ensures !Isa.Run(ids, DecodeAll(Compile(p).value), s, n).halted
  {
    hide Compile, Meaning, KernelTable, Agrees, WorldOf, Isa.Run;
    var w := WorldOf(p, ids);
    WordsDecode(p, ids);
    CompiledWorld(p, ids);
    var m, s' := RunKernel(p, ids, s, n);
    var mid := Isa.Run(ids, w.prog, s, n);
    RunAdd(ids, w.prog, s, n, m - n);
    if mid.halted {
      HaltedStays(ids, w.prog, mid, m - n);
    }
  }

  /** A kernel that returns a value has no caller to return to: the lane goes back to word 0
      and starts the whole kernel again on the memory it left. */
  lemma KernelRestarts(p: Program, ids: Ids, s: Lane, fuel: nat) returns (n: nat)
    requires Compile(p).Some? && CleanProgram(p) && Start(s) && Meaning(p, ids, s.mem, fuel).Result?
    ensures var s' := Isa.Run(ids, DecodeAll(Compile(p).value), s, n);
            n >= 1 && Start(s') && s'.mem == Meaning(p, ids, s.mem, fuel).mem
  {
    hide Compile, Meaning, KernelTable, Lookup, Agrees, Isa.Run;
    WordsDecode(p, ids);
    CompiledWorld(p, ids);
    var n', s' := RunKernel(p, ids, s, fuel);
    n := n';
  }

  // ----- kernels that return no value -----

  /** No `return expr;`, which the checker does not forbid in a kernel. */
  predicate Valueless(s: Stmt)
    decreases s, 1
  {
    match s
    case If(_, thn, els) => ValuelessBlock(thn) && ValuelessBlock(els)
    case For(_, _, _, body) => ValuelessBlock(body)
    case Return(r) => r.None?
    case _ => true
  }

  predicate ValuelessBlock(b: Block)
    decreases b, 0
  {
    b.Seq? ==> Valueless(b.head) && ValuelessBlock(b.tail)
  }

  lemma {:induction false} BlockGivesNoValue(depth: nat, fs: seq<Func>, ids: Ids, b: Block, env: Env, mem: Memory, fuel: nat)
    requires ValuelessBlock(b)
    ensures !RunBlock(depth, fs, ids, b, env, mem, fuel).Result?
    decreases fuel, b, 0
  {
    hide RunStmt, Valueless;
    if b.Seq? {
      StmtGivesNoValue(depth, fs, ids, b.head, env, mem, fuel);
      var r := RunStmt(depth, fs, ids, b.head, env, mem, fuel);
      if r.Normal? {
        BlockGivesNoValue(depth, fs, ids, b.tail, r.env, r.mem, fuel);
      }
    }
  }

  lemma {:induction false} StmtGivesNoValue(depth: nat, fs: seq<Func>, ids: Ids, s: Stmt, env: Env, mem: Memory, fuel: nat)
    requires Valueless(s)
    ensures !RunStmt(depth, fs, ids, s, env, mem, fuel).Result?
    decreases fuel, s, 1
  {
    hide Eval, RunBlock, RunLoop, ValuelessBlock;
    match s
    case If(cond, thn, els) =>
      if cond.Op? && |cond.args| == 2 {
        var r := EvalAll(depth, fs, ids, cond.args, env, mem, fuel);
        if r.Vals? {
          BlockGivesNoValue(depth, fs, ids, thn, env, r.mem, fuel);
          BlockGivesNoValue(depth, fs, ids, els, env, r.mem, fuel);
        }
      }
    case For(x, init, _, _) =>
      var r := SetVar(x, Eval(depth, fs, ids, init, env, mem, fuel), env);
      if r.Normal? {
        LoopGivesNoValue(depth, fs, ids, s, r.env, r.mem, fuel);
      }
    case _ =>
  }

  lemma {:induction false} LoopGivesNoValue(depth: nat, fs: seq<Func>, ids: Ids, s: Stmt, env: Env, mem: Memory, fuel: nat)
    requires s.For? && ValuelessBlock(s.body)
    ensures !RunLoop(depth, fs, ids, s, env, mem, fuel).Result?
    decreases fuel, s, 0
  {
    hide RunBlock, ValuelessBlock, Eval;
    if fuel > 0 && s.v in env {
      var b := Eval(depth, fs, ids, s.bound, env, mem, fuel);
      if b.Val? && env[s.v] < b.v {
        BlockGivesNoValue(depth, fs, ids, s.body, env, b.mem, fuel);
        var r := RunBlock(depth, fs, ids, s.body, env, b.mem, fuel);
        if r.Normal? && s.v in r.env {
          LoopGivesNoValue(depth, fs, ids, s, r.env[s.v := S32(r.env[s.v] as int + 1)], r.mem, fuel - 1);
        }
      }
    }
  }

  /** A clean kernel without `return expr;` that terminates with everything it does defined halts as the source says:
      that one statement form is all that stands between a terminating kernel and its RET. */
  lemma KernelHalts(p: Program, ids: Ids, s: Lane, fuel: nat) returns (n: nat)
    requires Compile(p).Some? && CleanProgram(p) && Start(s) && ValuelessBlock(p.kernels[0].body)
    requires !Meaning(p, ids, s.mem, fuel).Timeout? && !Meaning(p, ids, s.mem, fuel).Stuck?
    ensures var out, s' := Meaning(p, ids, s.mem, fuel), Isa.Run(ids, DecodeAll(Compile(p).value), s, n);
            Ended(out) && s'.halted && s'.mem == out.mem
  {
    hide Compile, CleanBlock, ParamEnv, DecodeAll, Isa.Run;
    BlockGivesNoValue(1, p.funcs, ids, p.kernels[0].body, ParamEnv(p.kernels[0].params, s.mem), s.mem, fuel);
    n := KernelCorrect(p, ids, s, fuel);
  }

  /** A kernel that returns a value from every memory runs for ever. */
  lemma {:induction false} RestartsForever(p: Program, ids: Ids, s: Lane, fuel: nat, n: nat)
    requires Compile(p).Some? && CleanProgram(p) && Start(s) && forall m: Memory :: Meaning(p, ids, m, fuel).Result?
    ensures !Isa.Run(ids, DecodeAll(Compile(p).value), s, n).halted
    decreases n
  {
    hide Compile, CleanProgram, Meaning, DecodeAll, Isa.Run;
    var prog := DecodeAll(Compile(p).value);
    var k := KernelRestarts(p, ids, s, fuel);
    var s' := Isa.Run(ids, prog, s, k);
    if n < k {
      RunAdd(ids, prog, s, n, k - n);
      if Isa.Run(ids, prog, s, n).halted {
        HaltedStays(ids, prog, Isa.Run(ids, prog, s, n), k - n);
      }
    } else {
      RunAdd(ids, prog, s, k, n - k);
      RestartsForever(p, ids, s', fuel, n - k);
    }
  }

  // ----- exactly when a lane halts -----

  /** From memory `m` the kernel has returned values `k` times in a row, leaving `m'`. */
  ghost predicate Restarted(p: Program, ids: Ids, m: Memory, k: nat, m': Memory)
    requires p.kernels != []
    decreases k
  {
    if k == 0 then m' == m
    else exists fuel: nat :: Meaning(p, ids, m, fuel).Result? && Restarted(p, ids, Meaning(p, ids, m, fuel).mem, k - 1, m')
  }

  /** No start of the kernel meets an operation without a meaning. */
  ghost predicate NeverStuck(p: Program, ids: Ids, m: Memory)
    requires p.kernels != []
  {
    forall k: nat, m': Memory, fuel: nat :: Restarted(p, ids, m, k, m') ==> !Meaning(p, ids, m', fuel).Stuck?
  }

  /** Some start of the kernel ends. */
  ghost predicate SomeStartEnds(p: Program, ids: Ids, m: Memory)
    requires p.kernels != []
  {
    exists k: nat, m': Memory, fuel: nat :: Restarted(p, ids, m, k, m') && Ended(Meaning(p, ids, m', fuel))
  }

  ghost predicate Halts(ids: Ids, prog: seq<Instr>, s: Lane) {
    exists n: nat :: Isa.Run(ids, prog, s, n).halted
  }

  ghost predicate HaltsWith(ids: Ids, prog: seq<Instr>, s: Lane, mem: Memory) {
    exists n: nat :: Isa.Run(ids, prog, s, n).halted && Isa.Run(ids, prog, s, n).mem == mem
  }

  /** One more start in front. */
  lemma RestartedOnce(p: Program, ids: Ids, m: Memory, fuel: nat)
    requires p.kernels != [] && Meaning(p, ids, m, fuel).Result?
    ensures NeverStuck(p, ids, m) ==> NeverStuck(p, ids, Meaning(p, ids, m, fuel).mem)
    ensures SomeStartEnds(p, ids, Meaning(p, ids, m, fuel).mem) ==> SomeStartEnds(p, ids, m)
  {
    hide Meaning;
    var m1 := Meaning(p, ids, m, fuel).mem;
    forall k: nat, m': Memory | Restarted(p, ids, m1, k, m')
      ensures Restarted(p, ids, m, k + 1, m')
    {
    }
    if SomeStartEnds(p, ids, m1) {
      var k: nat, m': Memory, f: nat :| Restarted(p, ids, m1, k, m') && Ended(Meaning(p, ids, m', f));
      assert Restarted(p, ids, m, k + 1, m');
    }
  }

  lemma {:induction false} EndsHalt(p: Program, ids: Ids, s: Lane, k: nat, m': Memory, fuel: nat)
    requires Compile(p).Some? && CleanProgram(p) && Start(s) && Restarted(p, ids, s.mem, k, m') && Ended(Meaning(p, ids, m', fuel))
    ensures HaltsWith(ids, DecodeAll(Compile(p).value), s, Meaning(p, ids, m', fuel).mem)
    decreases k
  {
    hide Compile, CleanBlock, Meaning, DecodeAll, Isa.Run;
    if k == 0 {
      var n := KernelCorrect(p, ids, s, fuel);
    } else {
      var f: nat :| Meaning(p, ids, s.mem, f).Result? && Restarted(p, ids, Meaning(p, ids, s.mem, f).mem, k - 1, m');
      var i := KernelRestarts(p, ids, s, f);
      var prog := DecodeAll(Compile(p).value);
      EndsHalt(p, ids, Isa.Run(ids, prog, s, i), k - 1, m', fuel);
      var s' := Isa.Run(ids, prog, s, i);
      var n: nat :| Isa.Run(ids, prog, s', n).halted && Isa.Run(ids, prog, s', n).mem == Meaning(p, ids, m', fuel).mem;
      RunAdd(ids, prog, s, i, n);
    }
  }

  lemma {:induction false} HaltedEnds(p: Program, ids: Ids, s: Lane, n: nat)
    requires Compile(p).Some? && CleanProgram(p) && Start(s) && NeverStuck(p, ids, s.mem)
    requires Isa.Run(ids, DecodeAll(Compile(p).value), s, n).halted
    ensures SomeStartEnds(p, ids, s.mem)
    decreases n
  {
    hide Compile, CleanBlock, Meaning, DecodeAll, Isa.Run;
    var prog := DecodeAll(Compile(p).value);
    var out := Meaning(p, ids, s.mem, n);
    assert Restarted(p, ids, s.mem, 0, s.mem);
    if out.Timeout? {
      KernelDiverges(p, ids, s, n);
    } else if out.Result? {
      var i := KernelRestarts(p, ids, s, n);
      if n < i {
        RunAdd(ids, prog, s, n, i - n);
        HaltedStays(ids, prog, Isa.Run(ids, prog, s, n), i - n);
      } else {
        RunAdd(ids, prog, s, i, n - i);
        RestartedOnce(p, ids, s.mem, n);
        HaltedEnds(p, ids, Isa.Run(ids, prog, s, i), n - i);
      }
    }
  }

  /** Halting, exactly. Where every start of a clean kernel is defined, the lane halts just if some start of the kernel, each
      on the memory the one before has left, ends without returning a value; it halts with the memory of that one. */
  lemma HaltsExactly(p: Program, ids: Ids, s: Lane)
    requires Compile(p).Some? && CleanProgram(p) && Start(s) && NeverStuck(p, ids, s.mem)
    ensures Halts(ids, DecodeAll(Compile(p).value), s) <==> SomeStartEnds(p, ids, s.mem)
    ensures forall k: nat, m': Memory, fuel: nat :: Restarted(p, ids, s.mem, k, m') && Ended(Meaning(p, ids, m', fuel)) ==>
              HaltsWith(ids, DecodeAll(Compile(p).value), s, Meaning(p, ids, m', fuel).mem)
  {
    hide Compile, CleanBlock, Meaning, DecodeAll, Isa.Run, NeverStuck;
    if Halts(ids, DecodeAll(Compile(p).value), s) {
      var n: nat :| Isa.Run(ids, DecodeAll(Compile(p).value), s, n).halted;
      HaltedEnds(p, ids, s, n);
    }
    forall k: nat, m': Memory, fuel: nat | Restarted(p, ids, s.mem, k, m') && Ended(Meaning(p, ids, m', fuel))
      ensures HaltsWith(ids, DecodeAll(Compile(p).value), s, Meaning(p, ids, m', fuel).mem)
    {
      EndsHalt(p, ids, s, k, m', fuel);
    }
  }
}
