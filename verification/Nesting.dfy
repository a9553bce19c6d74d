/** Balance of SYNCs. Every run of a compiled program accounts for each `if` it enters: its SYNC has been executed, it is
    still open, or a `return` has left it. */
module Nesting {
  import opened Words
  import opened Isa
  import opened Lang
  import opened Sema
  import opened Lowering
  import opened Simulation
  import opened Preservation
  import opened Compiler
  import opened Safety

  // ----- how many `if`s are open at a position, from the source -----

  /** `n` positions at depth `d`. */
  function Flat(n: nat, d: nat): (f: seq<nat>)
    ensures |f| == n && forall k :: 0 <= k < n ==> f[k] == d
  {
    seq(n, k requires 0 <= k < n => d)
  }

  /** For each instruction of a statement, the number of `if`s that are open there, `d` being open around the
      statement. An `if` is open from behind its conditional branch to its SYNC, in both arms. */
  function StmtDepths(tab: seq<Binding>, s: Stmt, d: nat): seq<nat>
    requires LowerStmt(tab, s).Some?
    decreases s, 1
  {
    match s
    case If(cond, thn, els) =>
      Flat(|LowerAll(tab, cond.args, TMP_BASE).code| + 2, d)
      + BlockDepths(tab, els, d + 1) + Flat(2, d + 1) + BlockDepths(tab, thn, d + 1) + [d + 1]
    case For(x, init, bound, body) =>
      Flat(|LowerSet(tab, x, init).value| + |LowerExpr(tab, bound, TMP_BASE).code| + 3, d)
      + BlockDepths(tab, body, d) + Flat(2, d)
    case _ => Flat(|LowerStmt(tab, s).value|, d)
  }

  function BlockDepths(tab: seq<Binding>, b: Block, d: nat): seq<nat>
    requires LowerBlock(tab, b).Some?
    decreases b, 0
  {
    match b
    case End => []
    case Seq(s, rest) => StmtDepths(tab, s, d) + BlockDepths(tab, rest, d)
  }

  function BodyDepths(tab: seq<Binding>, b: Block): seq<nat> {
    if LowerBlock(tab, b).None? then [] else BlockDepths(tab, b, 0)
  }

  /** The loads of the parameters, the body, and the RET the compiler adds. */
  function KernelDepths(tab: seq<Binding>, k: Func): seq<nat> {
    var lv := Flat(|k.params|, 0) + BodyDepths(tab, k.body);
    match LowerKernel(tab, k) case Some(code) => if |code| > |lv| then lv + [0] else lv case None => lv
  }

  function FuncDepths(tabs: seq<seq<Binding>>, fs: seq<Func>): seq<nat>
    requires |tabs| == |fs|
  {
    if fs == [] then [] else BodyDepths(tabs[0], fs[0].body) + FuncDepths(tabs[1..], fs[1..])
  }

  ghost function DepthsOf(p: Program): seq<nat>
    requires Compile(p).Some?
  {
    KernelDepths(KernelTable(p), p.kernels[0]) + FuncDepths(Check(p).value.1, p.funcs)
  }

  // ----- depths that fit the code -----

  /** The depth at a position; behind the end it is `d`. */
  function DepthAt(lv: seq<nat>, d: nat, k: int): nat {
    if 0 <= k < |lv| then lv[k] else d
  }

  /** Where returns may be: anywhere, outside `if`s only, nowhere. */
  datatype Returns = Anywhere | Outside | Nowhere

  /** What holds of the arms of an `if`. */
  function Arm(r: Returns): Returns { if r.Anywhere? then Anywhere else Nowhere }

  /** The depth is right wherever control can go from position `k`; a return is where it may be. */
  predicate Fits(code: seq<Instr>, lv: seq<nat>, d: nat, r: Returns, k: nat)
    requires k < |code| == |lv|
  {
    var next := DepthAt(lv, d, k + 1);
    match code[k]
    case Brnzp(_, off) => 0 <= k + off <= |code| && DepthAt(lv, d, k + off) == next && (next == lv[k] || next == lv[k] + 1)
    case Sync => lv[k] == next + 1
    case Ret => r.Anywhere? || (r.Outside? && lv[k] == d)
    case Sret => r.Anywhere? || (r.Outside? && lv[k] == d)
    case Call(_) => false
    case _ => next == lv[k]
  }

  ghost predicate Nested(code: seq<Instr>, lv: seq<nat>, d: nat, r: Returns) {
    |lv| == |code| && DepthAt(lv, d, 0) == d && forall k :: 0 <= k < |code| ==> Fits(code, lv, d, r, k)
  }

  /** Code in the middle of other code fits there if what follows is at its depth. */
  lemma Embed(a: seq<Instr>, la: seq<nat>, m: seq<Instr>, lm: seq<nat>, e: nat, b: seq<Instr>, lb: seq<nat>, d: nat, r: Returns, k: nat)
    requires |la| == |a| && |lb| == |b| && Nested(m, lm, e, if e == d then r else Arm(r)) && DepthAt(lb, d, 0) == e
    requires |a| <= k < |a| + |m|
    ensures Fits(a + m + b, la + lm + lb, d, r, k)
  {
    var i := k - |a|;
    assert Fits(m, lm, e, if e == d then r else Arm(r), i);
    forall j | 0 <= j <= |m|
      ensures DepthAt(la + lm + lb, d, |a| + j) == DepthAt(lm, e, j)
    {
    }
  }

  lemma NestedCat(a: seq<Instr>, la: seq<nat>, b: seq<Instr>, lb: seq<nat>, d: nat, r: Returns)
    requires Nested(a, la, d, r) && Nested(b, lb, d, r)
    ensures Nested(a + b, la + lb, d, r)
  {
    hide Fits;
    assert [] + a + b == a + b && [] + la + lb == la + lb && a + b + [] == a + b && la + lb + [] == la + lb;
    forall k | 0 <= k < |a + b|
      ensures Fits(a + b, la + lb, d, r, k)
    {
      if k < |a| {
        Embed([], [], a, la, d, b, lb, d, r, k);
      } else {
        Embed(a, la, b, lb, d, [], [], d, r, k);
      }
    }
  }

  // ----- expressions -----

  /** Straight code that neither returns nor synchronises. */
  predicate Quiet(code: seq<Instr>) {
    forall k :: 0 <= k < |code| ==> code[k].Alu? || code[k].Ldr? || code[k].Str? || code[k].Const? || code[k].CallTo? || code[k].Cmp?
  }

  lemma QuietNested(code: seq<Instr>, d: nat, r: Returns)
    requires Quiet(code)
    ensures Nested(code, Flat(|code|, d), d, r)
  {
  }

  lemma {:induction false} MovsQuiet(dst: int, src: seq<int>)
    ensures Quiet(Movs(dst, src))
    decreases |src|
  {
    if src != [] {
      MovsQuiet(dst, src[..|src| - 1]);
    }
  }

  lemma {:induction false} ExprQuiet(tab: seq<Binding>, e: Expr, t: int)
    requires LowerExpr(tab, e, t).Good?
    ensures Quiet(LowerExpr(tab, e, t).code)
    decreases e, 1
  {
    hide Movs, Folds, OpcodeFor, Lookup, Fold;
    match e
    case Op(_, args) =>
      if !Folds(e) {
        ExprsQuiet(tab, args, t);
      }
    case MemLoad(a) => ExprQuiet(tab, a, t);
    case CallF(_, args) =>
      ExprsQuiet(tab, args, t);
      MovsQuiet(FUNC_REG_BASE, LowerAll(tab, args, t).regs);
    case _ =>
  }

  lemma {:induction false} ExprsQuiet(tab: seq<Binding>, es: seq<Expr>, t: int)
    requires LowerAll(tab, es, t).GoodAll?
    ensures Quiet(LowerAll(tab, es, t).code)
    decreases es, 0
  {
    hide LowerExpr;
    if es != [] {
      ExprQuiet(tab, es[0], t);
      ExprsQuiet(tab, es[1..], LowerExpr(tab, es[0], t).next);
    }
  }

  lemma SetQuiet(tab: seq<Binding>, x: string, e: Expr)
    requires LowerSet(tab, x, e).Some?
    ensures Quiet(LowerSet(tab, x, e).value)
  {
    hide LowerExpr, Lookup;
    ExprQuiet(tab, e, TMP_BASE);
  }

  // ----- statements -----

  /** The returns of a statement are where they may be. */
  predicate Clear(s: Stmt, r: Returns)
    decreases s, 1
  {
    match s
    case If(_, thn, els) => ClearBlock(thn, Arm(r)) && ClearBlock(els, Arm(r))
    case For(_, _, _, body) => ClearBlock(body, r)
    case Return(_) => !r.Nowhere?
    case _ => true
  }

  predicate ClearBlock(b: Block, r: Returns)
    decreases b, 0
  {
    r.Anywhere? || (b.Seq? ==> Clear(b.head, r) && ClearBlock(b.tail, r))
  }

  lemma {:induction false} StmtNested(tab: seq<Binding>, s: Stmt, d: nat, r: Returns)
    requires LowerStmt(tab, s).Some? && (Clear(s, r) || r.Anywhere?)
    ensures Nested(LowerStmt(tab, s).value, StmtDepths(tab, s, d), d, r)
    decreases s, 1
  {
    hide Nested, LowerAll, LowerExpr, LowerSet, LowerBlock, BlockDepths, IfCode, LoopCode, Mov, Quiet, ClearBlock;
    match s
    case Decl(x, e) =>
      SetQuiet(tab, x, e);
      QuietNested(LowerSet(tab, x, e).value, d, r);
    case Assign(x, e) =>
      SetQuiet(tab, x, e);
      QuietNested(LowerSet(tab, x, e).value, d, r);
    case Store(addr, val) =>
      StoreQuiet(tab, addr, val);
      QuietNested(LowerStmt(tab, s).value, d, r);
    case If(cond, thn, els) =>
      var g := LowerAll(tab, cond.args, TMP_BASE);
      ExprsQuiet(tab, cond.args, TMP_BASE);
      BlockNested(tab, els, d + 1, Arm(r)) by { AnywhereClear(els); }
      BlockNested(tab, thn, d + 1, Arm(r)) by { AnywhereClear(thn); }
      IfNested(g.code, cond.op, g.regs[0], g.regs[1], LowerBlock(tab, els).value, BlockDepths(tab, els, d + 1),
               LowerBlock(tab, thn).value, BlockDepths(tab, thn, d + 1), d, r);
    case For(x, init, bound, body) =>
      var i, b := LowerSet(tab, x, init).value, LowerExpr(tab, bound, TMP_BASE);
      SetQuiet(tab, x, init);
      ExprQuiet(tab, bound, TMP_BASE);
      BlockNested(tab, body, d, r) by { AnywhereClear(body); }
      LoopNested(i, b.code, Lookup(tab, x), b.reg, LowerBlock(tab, body).value, BlockDepths(tab, body, d), d, r);
    case Return(e) => ReturnNested(tab, e, d, r);
  }

  lemma {:induction false} BlockNested(tab: seq<Binding>, b: Block, d: nat, r: Returns)
    requires LowerBlock(tab, b).Some? && ClearBlock(b, r)
    ensures Nested(LowerBlock(tab, b).value, BlockDepths(tab, b, d), d, r)
    decreases b, 0
  {
    hide LowerStmt, StmtDepths, Clear;
    if b.Seq? {
      hide Nested;
      StmtNested(tab, b.head, d, r);
      BlockNested(tab, b.tail, d, r);
      NestedCat(LowerStmt(tab, b.head).value, StmtDepths(tab, b.head, d), LowerBlock(tab, b.tail).value, BlockDepths(tab, b.tail, d), d, r);
    }
  }

  lemma StoreQuiet(tab: seq<Binding>, addr: Expr, val: Expr)
    requires LowerStmt(tab, Store(addr, val)).Some?
    ensures Quiet(LowerStmt(tab, Store(addr, val)).value)
  {
    hide LowerAll;
    ExprsQuiet(tab, [val, addr], TMP_BASE);
  }

  lemma AnywhereClear(b: Block)
    ensures ClearBlock(b, Anywhere)
  {
  }

  lemma ReturnNested(tab: seq<Binding>, e: Option<Expr>, d: nat, r: Returns)
    requires LowerStmt(tab, Return(e)).Some? && !r.Nowhere?
    ensures Nested(LowerStmt(tab, Return(e)).value, Flat(|LowerStmt(tab, Return(e)).value|, d), d, r)
  {
    hide LowerExpr;
    if e.Some? {
      var code := LowerStmt(tab, Return(e)).value;
      ExprQuiet(tab, e.value, TMP_BASE);
      assert Quiet(code[..|code| - 1]);
      forall k | 0 <= k < |code| - 1
        ensures Fits(code, Flat(|code|, d), d, r, k)
      {
        assert code[k] == code[..|code| - 1][k];
      }
    }
  }

  lemma IfNested(test: seq<Instr>, op: Operator, l: int, r: int, els: seq<Instr>, le: seq<nat>, thn: seq<Instr>, lt: seq<nat>, d: nat, ret: Returns)
    requires Quiet(test) && Nested(els, le, d + 1, Arm(ret)) && Nested(thn, lt, d + 1, Arm(ret))
    ensures Nested(IfCode(test, op, l, r, els, thn), Flat(|test| + 2, d) + le + Flat(2, d + 1) + lt + [d + 1], d, ret)
  {
    hide NzpForOp, Flat;
    var head, mid := test + [Cmp(l, r), Brnzp(NzpForOp(op), 2 + |els|)], [Brnzp(NZP_ALL, 2 + |thn|), Nop];
    var front, between := Flat(|test| + 2, d), Flat(2, d + 1);
    var code, lv := IfCode(test, op, l, r, els, thn), front + le + between + lt + [d + 1];
    assert code == head + els + (mid + thn + [Sync]) && lv == front + le + (between + lt + [d + 1]);
    forall k | 0 <= k < |code|
      ensures Fits(code, lv, d, ret, k)
    {
      hide Quiet, Nested;
      if |head| <= k < |head| + |els| {
        Embed(head, front, els, le, d + 1, mid + thn + [Sync], between + lt + [d + 1], d, ret, k);
      } else if |head| + |els| + 2 <= k < |code| - 1 {
        Embed(head + els + mid, front + le + between, thn, lt, d + 1, [Sync], [d + 1], d, ret, k);
      } else {
        IfJoints(test, op, l, r, els, le, thn, lt, d, ret, k);
      }
    }
  }

  /** The positions of an `if` outside its arms. */
  lemma IfJoints(test: seq<Instr>, op: Operator, l: int, r: int, els: seq<Instr>, le: seq<nat>, thn: seq<Instr>, lt: seq<nat>, d: nat, ret: Returns, k: nat)
    requires Quiet(test) && Nested(els, le, d + 1, Arm(ret)) && Nested(thn, lt, d + 1, Arm(ret))
    requires k < |test| + 2 || |test| + 2 + |els| <= k < |test| + 4 + |els| || k == |test| + 4 + |els| + |thn|
    ensures Fits(IfCode(test, op, l, r, els, thn), Flat(|test| + 2, d) + le + Flat(2, d + 1) + lt + [d + 1], d, ret, k)
  {
    hide NzpForOp;
    assert DepthAt(le, d + 1, 0) == DepthAt(lt, d + 1, 0) == d + 1;
  }

  lemma LoopNested(init: seq<Instr>, test: seq<Instr>, v: int, b: int, body: seq<Instr>, lb: seq<nat>, d: nat, r: Returns)
    requires Quiet(init) && Quiet(test) && Nested(body, lb, d, r)
    ensures Nested(init + [Const(TMP_ONE, 1)] + LoopCode(test, v, b, body), Flat(|init| + |test| + 3, d) + lb + Flat(2, d), d, r)
  {
    hide Flat;
    var head := init + [Const(TMP_ONE, 1)] + test + [Cmp(v, b), Brnzp(NZP_ZP, |body| + 3)];
    var tail := [Alu(OP_ADD, v, v, TMP_ONE, 0), Brnzp(NZP_ALL, -(|test| + |body| + 3))];
    var code, lv := init + [Const(TMP_ONE, 1)] + LoopCode(test, v, b, body), Flat(|head|, d) + lb + Flat(2, d);
    assert code == head + body + tail;
    forall k | 0 <= k < |code|
      ensures Fits(code, lv, d, r, k)
    {
      hide Quiet, Nested;
      if |head| <= k < |head| + |body| {
        Embed(head, Flat(|head|, d), body, lb, d, tail, Flat(2, d), d, r, k);
      } else {
        LoopJoints(init, test, v, b, body, lb, d, r, k);
      }
    }
  }

  /** The positions of a loop outside its body. */
  lemma LoopJoints(init: seq<Instr>, test: seq<Instr>, v: int, b: int, body: seq<Instr>, lb: seq<nat>, d: nat, r: Returns, k: nat)
    requires Quiet(init) && Quiet(test) && Nested(body, lb, d, r)
    requires k < |init| + |test| + 3 || |init| + |test| + 3 + |body| <= k < |init| + |test| + |body| + 5
    ensures Fits(init + [Const(TMP_ONE, 1)] + LoopCode(test, v, b, body), Flat(|init| + |test| + 3, d) + lb + Flat(2, d), d, r, k)
  {
    assert DepthAt(lb, d, 0) == d;
  }

  // ----- programs -----

  lemma {:induction false} LoadsQuiet(tab: seq<Binding>, params: seq<string>, i: nat)
    requires i <= |params|
    ensures Quiet(LoadParams(tab, params, i)) && |LoadParams(tab, params, i)| == |params| - i
    decreases |params| - i
  {
    if i < |params| {
      LoadsQuiet(tab, params, i + 1);
    }
  }

  lemma KernelNested(tab: seq<Binding>, k: Func, r: Returns)
    requires LowerKernel(tab, k).Some? && ClearBlock(k.body, r) && !r.Nowhere?
    ensures Nested(LowerKernel(tab, k).value, KernelDepths(tab, k), 0, r)
  {
    hide Nested, Quiet, LowerBlock, BlockDepths, LoadParams, Flat, ClearBlock;
    var loads, body := LoadParams(tab, k.params, 0), LowerBlock(tab, k.body).value;
    LoadsQuiet(tab, k.params, 0);
    QuietNested(loads, 0, r);
    BlockNested(tab, k.body, 0, r);
    NestedCat(loads, Flat(|loads|, 0), body, BlockDepths(tab, k.body, 0), 0, r);
    SameLength(loads + body, Flat(|loads|, 0) + BlockDepths(tab, k.body, 0), 0, r);
    RetNested(r);
    NestedCat(loads + body, Flat(|loads|, 0) + BlockDepths(tab, k.body, 0), [Ret], [0], 0, r);
  }

  lemma RetNested(r: Returns)
    requires !r.Nowhere?
    ensures Nested([Ret], [0], 0, r)
  {
  }

  lemma SameLength(code: seq<Instr>, lv: seq<nat>, d: nat, r: Returns)
    requires Nested(code, lv, d, r)
    ensures |lv| == |code| && DepthAt(lv, d, 0) == d
  {
  }

  lemma {:induction false} FuncsNested(tabs: seq<seq<Binding>>, fs: seq<Func>, at: nat, r: Returns)
    requires |tabs| == |fs| && LowerFuncs(tabs, fs, at).Some? && forall f <- fs :: ClearBlock(f.body, r)
    ensures Nested(LowerFuncs(tabs, fs, at).value.0, FuncDepths(tabs, fs), 0, r)
    ensures forall k :: 0 <= k < |fs| ==> var start := LowerFuncs(tabs, fs, at).value.1[k];
                                          start >= at && DepthAt(FuncDepths(tabs, fs), 0, start - at) == 0
    decreases |fs|
  {
    hide LowerBlock, BlockDepths, ClearBlock;
    if fs != [] {
      hide Nested;
      var first := LowerBlock(tabs[0], fs[0].body).value;
      BlockNested(tabs[0], fs[0].body, 0, r);
      FuncsNested(tabs[1..], fs[1..], at + |first|, r);
      var (rest, starts) := LowerFuncs(tabs[1..], fs[1..], at + |first|).value;
      var head, tail := BlockDepths(tabs[0], fs[0].body, 0), FuncDepths(tabs[1..], fs[1..]);
      NestedCat(first, head, rest, tail, 0, r);
      SameLength(first, head, 0, r);
      SameLength(first + rest, head + tail, 0, r);
      forall k | 0 <= k < |fs|
        ensures ([at] + starts)[k] >= at && DepthAt(head + tail, 0, ([at] + starts)[k] - at) == 0
      {
        if k > 0 {
          assert ([at] + starts)[k] == starts[k - 1];
        }
      }
    }
  }

  /** The returns of the kernel and of all funcs are where they may be. */
  predicate ClearProgram(p: Program, r: Returns) {
    (p.kernels != [] ==> ClearBlock(p.kernels[0].body, r)) && forall f <- p.funcs :: ClearBlock(f.body, r)
  }

  /** Every func starts with no `if` open. */
  ghost predicate StartsClear(lv: seq<nat>, starts: seq<nat>) {
    forall k :: 0 <= k < |starts| ==> DepthAt(lv, 0, starts[k]) == 0
  }

  lemma ProgramNested(p: Program, w: World, ktab: seq<Binding>, words: seq<int>, r: Returns)
    requires Compiled(p, w, ktab, words) && ClearProgram(p, r) && !r.Nowhere?
    ensures Nested(LowerProgram(ktab, w.tabs, p).value.0, DepthsOf(p), 0, r) && StartsClear(DepthsOf(p), w.starts)
  {
    hide Nested, LowerKernel, LowerFuncs, KernelDepths, FuncDepths, Check, Link, EncodeAll, ClearBlock;
    var kernel := LowerKernel(ktab, p.kernels[0]).value;
    var (funcs, starts) := LowerFuncs(w.tabs, p.funcs, |kernel|).value;
    var lk, lf := KernelDepths(ktab, p.kernels[0]), FuncDepths(w.tabs, p.funcs);
    KernelNested(ktab, p.kernels[0], r);
    FuncsNested(w.tabs, p.funcs, |kernel|, r);
    NestedCat(kernel, lk, funcs, lf, 0, r);
    SameLength(kernel, lk, 0, r);
    forall k | 0 <= k < |starts|
      ensures DepthAt(lk + lf, 0, starts[k]) == 0
    {
      assert DepthAt(lf, 0, starts[k] - |kernel|) == 0;
    }
  }

  // ----- runs -----

  /** The `if`s open around the return addresses. */
  function StackDepth(lv: seq<nat>, stack: seq<int>): nat {
    if stack == [] then 0 else StackDepth(lv, stack[..|stack| - 1]) + DepthAt(lv, 0, stack[|stack| - 1])
  }

  /** The `if`s that are open in a lane, in its body and in the caller. */
  function Open(lv: seq<nat>, s: Lane): nat {
    DepthAt(lv, 0, s.pc) + StackDepth(lv, s.stack)
  }

  /** What a run has done: `if`s entered, SYNCs executed, and open `if`s left by an SRET. */
  datatype Tally = Tally(entered: nat, synced: nat, left: nat)

  function Joint(a: Tally, b: Tally): Tally {
    Tally(a.entered + b.entered, a.synced + b.synced, a.left + b.left)
  }

  function StepTally(prog: seq<Instr>, lv: seq<nat>, s: Lane): Tally {
    if s.halted || !(0 <= s.pc < |prog|) then Tally(0, 0, 0)
    else match prog[s.pc]
      case Brnzp(_, _) => Tally(if DepthAt(lv, 0, s.pc + 1) > DepthAt(lv, 0, s.pc) then 1 else 0, 0, 0)
      case Sync => Tally(0, 1, 0)
      case Sret => Tally(0, 0, DepthAt(lv, 0, s.pc))
      case _ => Tally(0, 0, 0)
  }

  function RunTally(ids: Ids, prog: seq<Instr>, lv: seq<nat>, s: Lane, n: nat): Tally
    decreases n
  {
    if n == 0 then Tally(0, 0, 0) else Joint(StepTally(prog, lv, s), RunTally(ids, prog, lv, Step(ids, prog, s), n - 1))
  }

  lemma PushedDepth(lv: seq<nat>, stack: seq<int>, pc: int)
    ensures StackDepth(lv, stack + [pc]) == StackDepth(lv, stack) + DepthAt(lv, 0, pc)
  {
    assert (stack + [pc])[..|stack|] == stack;
  }

  lemma StepBalanced(w: World, code: seq<Instr>, lv: seq<nat>, s: Lane)
    requires Nested(code, lv, 0, Anywhere) && StartsClear(lv, w.starts) && w.prog == Link(w.fs, w.starts, code, 0) && |s.stack| <= 1
    ensures var t := StepTally(w.prog, lv, s);
            Open(lv, s) + t.entered == Open(lv, Step(w.ids, w.prog, s)) + t.synced + t.left
  {
    if !s.halted && 0 <= s.pc < |code| {
      hide FindFunc, Exec, StartsClear, StackDepth;
      assert Fits(code, lv, 0, Anywhere, s.pc);
      assert w.prog[s.pc] == LinkInstr(w.fs, w.starts, code[s.pc], s.pc);
      if w.prog[s.pc].Call? {
        ClearAt(lv, w.starts, FindFunc(w.fs, code[s.pc].name));
        PushedDepth(lv, s.stack, s.pc + 1);
        assert Exec(w.ids, w.prog[s.pc], s) == s.(pc := w.starts[FindFunc(w.fs, code[s.pc].name)], stack := s.stack + [s.pc + 1]) by {
          CallExec(w.ids, w.starts[FindFunc(w.fs, code[s.pc].name)], s);
        }
      } else {
        ExecBalanced(w.ids, w.prog, lv, s);
      }
    }
  }

  lemma CallExec(ids: Ids, target: nat, s: Lane)
    requires |s.stack| <= 1
    ensures Exec(ids, Isa.Call(target - s.pc), s) == s.(pc := target, stack := s.stack + [s.pc + 1])
  {
  }

  lemma ExecBalanced(ids: Ids, prog: seq<Instr>, lv: seq<nat>, s: Lane)
    requires |lv| == |prog| && DepthAt(lv, 0, 0) == 0 && !s.halted && 0 <= s.pc < |prog|
    requires !prog[s.pc].Call? && Fits(prog, lv, 0, Anywhere, s.pc)
    ensures var t := StepTally(prog, lv, s);
            Open(lv, s) + t.entered == Open(lv, Exec(ids, prog[s.pc], s)) + t.synced + t.left
  {
    hide Read, AluResult, Load, CompareNzp, NzpMatch;
  }

  lemma ClearAt(lv: seq<nat>, starts: seq<nat>, k: nat)
    requires StartsClear(lv, starts) && k < |starts|
    ensures DepthAt(lv, 0, starts[k]) == 0
  {
  }

  lemma {:induction false} RunBalanced(p: Program, w: World, ktab: seq<Binding>, code: seq<Instr>, lv: seq<nat>, s: Lane, n: nat)
    requires Laid(p, w, ktab) && OnTrack(p, w, ktab, s)
    requires Nested(code, lv, 0, Anywhere) && StartsClear(lv, w.starts) && w.prog == Link(w.fs, w.starts, code, 0)
    ensures var t := RunTally(w.ids, w.prog, lv, s, n);
            Open(lv, s) + t.entered == Open(lv, Isa.Run(w.ids, w.prog, s, n)) + t.synced + t.left
    decreases n
  {
    hide Laid, Nested, StartsClear, Link, Step, StepTally, Open, InKernel, InFunc;
    if n > 0 {
      SmallStack(p, w, ktab, s);
      StepBalanced(w, code, lv, s);
      var s1 := Step(w.ids, w.prog, s);
      assert Isa.Run(w.ids, w.prog, s, 1) == s1 by { assert Isa.Run(w.ids, w.prog, s1, 0) == s1; }
      TrackRun(p, w, ktab, s, 1);
      RunBalanced(p, w, ktab, code, lv, s1, n - 1);
    }
  }

  lemma SmallStack(p: Program, w: World, ktab: seq<Binding>, s: Lane)
    requires OnTrack(p, w, ktab, s)
    ensures |s.stack| <= 1
  {
    hide KernelCode, FuncCode;
  }

  /** Every run accounts for the `if`s it enters: as many as SYNCs executed, `if`s left by a return from a func or
      a restart, and `if`s still open. */
  lemma SyncsBalance(p: Program, ids: Ids, s: Lane, n: nat)
    requires Compile(p).Some? && Start(s)
    ensures var prog, lv := DecodeAll(Compile(p).value), DepthsOf(p);
            var t := RunTally(ids, prog, lv, s, n);
            t.entered == t.synced + t.left + Open(lv, Isa.Run(ids, prog, s, n))
  {
    hide Compile, DecodeAll, DepthsOf, Laid, OnTrack, Nested, StartsClear, Compiled, WorldOf, RunTally, DepthAt;
    var w, ktab, words := WorldOf(p, ids), KernelTable(p), Compile(p).value;
    CompiledWorld(p, ids);
    CompiledLaid(p, w, ktab, words);
    WordsDecode(p, ids);
    StartsOnTrack(p, w, ktab, s);
    ProgramNested(p, w, ktab, words, Anywhere);
    LinkOf(p, w, ktab, words);
    var code := LowerProgram(ktab, w.tabs, p).value.0;
    RunBalanced(p, w, ktab, code, DepthsOf(p), s, n);
    assert Open(DepthsOf(p), s) == 0 by { SameLength(code, DepthsOf(p), 0, Anywhere); }
  }

  lemma LinkOf(p: Program, w: World, ktab: seq<Binding>, words: seq<int>)
    requires Compiled(p, w, ktab, words)
    ensures p.kernels != [] && |w.tabs| == |p.funcs| && LowerProgram(ktab, w.tabs, p).Some?
    ensures w.prog == Link(w.fs, w.starts, LowerProgram(ktab, w.tabs, p).value.0, 0)
  {
    hide LowerProgram, Link, Check, EncodeAll, Compile;
  }

  // ----- programs that do not return from inside an `if` -----

  /** Nothing is left open by an SRET, and a halted lane stands at a RET outside all `if`s of its body. */
  lemma {:induction false} NothingLeft(w: World, code: seq<Instr>, lv: seq<nat>, s: Lane, n: nat)
    requires Nested(code, lv, 0, Outside) && w.prog == Link(w.fs, w.starts, code, 0) && (s.halted ==> DepthAt(lv, 0, s.pc) == 0)
    ensures RunTally(w.ids, w.prog, lv, s, n).left == 0
    ensures var s' := Isa.Run(w.ids, w.prog, s, n); s'.halted ==> DepthAt(lv, 0, s'.pc) == 0
    decreases n
  {
    hide Nested, Link, Step, StepTally, DepthAt;
    if n > 0 {
      StepLeavesNothing(w, code, lv, s);
      NothingLeft(w, code, lv, Step(w.ids, w.prog, s), n - 1);
    }
  }

  lemma StepLeavesNothing(w: World, code: seq<Instr>, lv: seq<nat>, s: Lane)
    requires Nested(code, lv, 0, Outside) && w.prog == Link(w.fs, w.starts, code, 0) && (s.halted ==> DepthAt(lv, 0, s.pc) == 0)
    ensures StepTally(w.prog, lv, s).left == 0
    ensures var s' := Step(w.ids, w.prog, s); s'.halted ==> DepthAt(lv, 0, s'.pc) == 0
  {
    hide FindFunc, Read, AluResult, Load, CompareNzp, NzpMatch;
    if !s.halted && 0 <= s.pc < |code| {
      assert w.prog[s.pc] == LinkInstr(w.fs, w.starts, code[s.pc], s.pc);
      assert Fits(code, lv, 0, Outside, s.pc);
    }
  }

  /** One SYNC for each `if`: in a program without a `return` inside an `if`, a lane that has halted outside funcs has
      executed exactly as many SYNCs as it has entered `if`s. */
  lemma OneSyncPerIf(p: Program, ids: Ids, s: Lane, n: nat)
    requires Compile(p).Some? && Start(s) && ClearProgram(p, Outside)
    ensures var prog, lv := DecodeAll(Compile(p).value), DepthsOf(p);
            var t, s' := RunTally(ids, prog, lv, s, n), Isa.Run(ids, prog, s, n);
            s'.halted && s'.stack == [] ==> t.entered == t.synced
  {
    hide Compile, DecodeAll, DepthsOf, Nested, StartsClear, Compiled, WorldOf, RunTally, DepthAt, ClearProgram;
    var w, ktab, words := WorldOf(p, ids), KernelTable(p), Compile(p).value;
    CompiledWorld(p, ids);
    WordsDecode(p, ids);
    ProgramNested(p, w, ktab, words, Outside);
    LinkOf(p, w, ktab, words);
    var code := LowerProgram(ktab, w.tabs, p).value.0;
    NothingLeft(w, code, DepthsOf(p), s, n);
    SyncsBalance(p, ids, s, n);
  }
}
