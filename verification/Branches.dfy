/** Every branch a compiled program executes comes after a comparison: the condition flags, which are clear when a
    block starts, hold a comparison's result whenever a branch looks at them. */
module Branches {
  import opened Isa
  import opened Lang
  import opened Sema
  import opened Lowering
  import opened Operators
  import opened Simulation
  import opened Preservation
  import opened Layout
  import opened Compiler

  /** A marking of positions that control reaches only after a comparison. It covers all branches; code is entered at
      an unmarked position, and goes from one to a marked one only behind a comparison. */
  ghost predicate Marks(code: seq<Instr>, mark: seq<bool>) {
    && |mark| == |code| && (code != [] ==> !mark[0])
    && (forall k :: 0 <= k < |code| && code[k].Brnzp? ==> mark[k])
    && forall k :: 0 < k < |code| && mark[k] ==> mark[k - 1] || code[k - 1].Cmp?
  }

  lemma MarksCat(a: seq<Instr>, ma: seq<bool>, b: seq<Instr>, mb: seq<bool>)
    requires Marks(a, ma) && Marks(b, mb)
    ensures Marks(a + b, ma + mb)
  {
  }

  /** Straight code needs no marks. */
  lemma MarkStraight(fs: seq<Func>, calls: bool, code: seq<Instr>) returns (mark: seq<bool>)
    requires Straight(fs, calls, code)
    ensures Marks(code, mark)
  {
    mark := seq(|code|, k requires 0 <= k < |code| => false);
  }

  /** Marks from a comparison on. */
  function FromOn(n: nat, from: int): (mark: seq<bool>)
    ensures |mark| == n && forall k :: 0 <= k < n ==> mark[k] == (k >= from)
  {
    seq(n, k requires 0 <= k < n => k >= from)
  }

  lemma MarkFrom(code: seq<Instr>, from: int)
    requires 0 < from <= |code| && code[from - 1].Cmp? && forall k :: 0 <= k < from ==> !code[k].Brnzp?
    ensures Marks(code, FromOn(|code|, from))
  {
  }

  lemma StraightPrefix(fs: seq<Func>, calls: bool, test: seq<Instr>, code: seq<Instr>)
    requires Straight(fs, calls, test) && |test| < |code| && code[..|test|] == test && code[|test|].Cmp?
    ensures forall k :: 0 <= k < |test| + 1 ==> !code[k].Brnzp?
  {
    forall k | 0 <= k < |test|
      ensures !code[k].Brnzp?
    {
      assert code[k] == code[..|test|][k];
      assert Plain(fs, calls, test[k]);
    }
  }

  lemma {:induction false} MarkStmt(fs: seq<Func>, calls: bool, tab: seq<Binding>, s: Stmt) returns (mark: seq<bool>)
    requires InRange(tab) && LowerStmt(tab, s).Some? && Named(fs, tab, s) && FewArgs(fs) && (StmtHasCall(s) ==> calls)
    ensures Marks(LowerStmt(tab, s).value, mark)
  {
    hide InRange, Straight, Marks, LowerSet, LowerExpr, LowerBlock, FewArgs, ExprOk, HasCall, IfCode, LoopCode;
    match s
    case Decl(x, e) =>
      SetStraight(fs, calls, tab, x, e);
      mark := MarkStraight(fs, calls, LowerSet(tab, x, e).value);
    case Assign(x, e) =>
      SetStraight(fs, calls, tab, x, e);
      mark := MarkStraight(fs, calls, LowerSet(tab, x, e).value);
    case Store(addr, val) => mark := MarkStore(fs, calls, tab, addr, val);
    case If(cond, thn, els) =>
      CondCalls(cond);
      ExprsStraight(fs, calls, tab, cond.args, TMP_BASE);
      var g := LowerAll(tab, cond.args, TMP_BASE);
      mark := MarkIf(fs, calls, g.code, cond.op, g.regs[0], g.regs[1], LowerBlock(tab, els).value, LowerBlock(tab, thn).value);
    case For(_, _, _, _) => mark := MarkFor(fs, calls, tab, s);
    case Return(_) => mark := MarkReturn(fs, calls, tab, s);
  }

  lemma MarkStore(fs: seq<Func>, calls: bool, tab: seq<Binding>, addr: Expr, val: Expr) returns (mark: seq<bool>)
    requires InRange(tab) && LowerStmt(tab, Store(addr, val)).Some? && ExprOk(fs, tab, addr) && ExprOk(fs, tab, val)
    requires FewArgs(fs) && (HasCall(addr) || HasCall(val) ==> calls)
    ensures Marks(LowerStmt(tab, Store(addr, val)).value, mark)
  {
    hide InRange, Straight, Marks, LowerExpr, LowerStmt, FewArgs, ExprOk, HasCall;
    StoreStraight(fs, calls, tab, addr, val);
    mark := MarkStraight(fs, calls, LowerStmt(tab, Store(addr, val)).value);
  }

  lemma MarkReturn(fs: seq<Func>, calls: bool, tab: seq<Binding>, s: Stmt) returns (mark: seq<bool>)
    requires InRange(tab) && s.Return? && LowerStmt(tab, s).Some? && Named(fs, tab, s) && FewArgs(fs) && (StmtHasCall(s) ==> calls)
    ensures Marks(LowerStmt(tab, s).value, mark)
  {
    hide InRange, Straight, Marks, LowerExpr, LowerStmt, FewArgs, ExprOk, HasCall;
    ReturnStraight(fs, calls, tab, s);
    mark := MarkStraight(fs, calls, LowerStmt(tab, s).value);
  }

  lemma MarkIf(fs: seq<Func>, calls: bool, test: seq<Instr>, op: Operator, l: int, r: int, els: seq<Instr>, thn: seq<Instr>)
    returns (mark: seq<bool>)
    requires Straight(fs, calls, test)
    ensures Marks(IfCode(test, op, l, r, els, thn), mark)
  {
    hide Straight, Marks, NzpForOp;
    var code := IfCode(test, op, l, r, els, thn);
    assert code[..|test|] == test && code[|test|] == Cmp(l, r);
    StraightPrefix(fs, calls, test, code);
    MarkFrom(code, |test| + 1);
    mark := FromOn(|code|, |test| + 1);
  }

  lemma MarkFor(fs: seq<Func>, calls: bool, tab: seq<Binding>, s: Stmt) returns (mark: seq<bool>)
    requires InRange(tab) && s.For? && LowerStmt(tab, s).Some? && Named(fs, tab, s) && FewArgs(fs) && (StmtHasCall(s) ==> calls)
    ensures Marks(LowerStmt(tab, s).value, mark)
  {
    hide InRange, Straight, Marks, LowerSet, LowerExpr, LowerBlock, FewArgs, ExprOk, HasCall;
    SetStraight(fs, calls, tab, s.v, s.init);
    ExprStraight(fs, calls, tab, s.bound, TMP_BASE);
    var init, b, body := LowerSet(tab, s.v, s.init).value, LowerExpr(tab, s.bound, TMP_BASE), LowerBlock(tab, s.body).value;
    OneStraight(fs, calls, Const(TMP_ONE, 1));
    StraightCat(fs, calls, init, [Const(TMP_ONE, 1)]);
    var head := init + [Const(TMP_ONE, 1)];
    var first := MarkStraight(fs, calls, head);
    var loop := LoopCode(b.code, Lookup(tab, s.v), b.reg, body);
    assert loop[..|b.code|] == b.code && loop[|b.code|] == Cmp(Lookup(tab, s.v), b.reg);
    StraightPrefix(fs, calls, b.code, loop);
    MarkFrom(loop, |b.code| + 1);
    MarksCat(head, first, loop, FromOn(|loop|, |b.code| + 1));
    mark := first + FromOn(|loop|, |b.code| + 1);
  }

  lemma {:induction false} MarkBlock(fs: seq<Func>, calls: bool, tab: seq<Binding>, b: Block) returns (mark: seq<bool>)
    requires InRange(tab) && LowerBlock(tab, b).Some? && NamedBlock(fs, tab, b) && FewArgs(fs) && (BlockHasCall(b) ==> calls)
    ensures Marks(LowerBlock(tab, b).value, mark)
    decreases b
  {
    hide InRange, Marks, LowerStmt, FewArgs, StmtHasCall, Named;
    if b.Seq? {
      var first := MarkStmt(fs, calls, tab, b.head);
      var rest := MarkBlock(fs, calls, tab, b.tail);
      MarksCat(LowerStmt(tab, b.head).value, first, LowerBlock(tab, b.tail).value, rest);
      mark := first + rest;
    } else {
      mark := [];
      assert Marks([], []) by { MarksNothing(); }
    }
  }

  lemma MarksNothing()
    ensures Marks([], [])
  {
  }

  lemma MarksRet(code: seq<Instr>, mark: seq<bool>) returns (mark': seq<bool>)
    requires Marks(code, mark)
    ensures Marks(CloseKernel(code), mark')
  {
    mark' := if CloseKernel(code) == code then mark else mark + [false];
  }

  lemma MarkKernel(p: Program) returns (mark: seq<bool>)
    requires Check(p).Some? && p.kernels != [] && LowerKernel(Check(p).value.0[0], p.kernels[0]).Some?
    ensures Marks(LowerKernel(Check(p).value.0[0], p.kernels[0]).value, mark)
  {
    hide Check, LowerBlock, LoadParams, Straight, NamedBlock, GoodTable, FewArgs, Marks;
    var tab, k := Check(p).value.0[0], p.kernels[0];
    AcceptedKernel(p);
    AcceptedArgs(p);
    GoodRange(tab, 1, KernelMax(p.funcs));
    var body := MarkBlock(p.funcs, true, tab, k.body);
    LoadsStraight(p.funcs, true, tab, k.params, 0);
    var loads := MarkStraight(p.funcs, true, LoadParams(tab, k.params, 0));
    MarksCat(LoadParams(tab, k.params, 0), loads, LowerBlock(tab, k.body).value, body);
    mark := MarksRet(LoadParams(tab, k.params, 0) + LowerBlock(tab, k.body).value, loads + body);
  }

  /** Funcs are entered at unmarked positions. */
  ghost predicate EntriesClear(mark: seq<bool>, starts: seq<nat>, at: int) {
    forall k :: 0 <= k < |starts| ==> 0 <= starts[k] - at < |mark| && !mark[starts[k] - at]
  }

  lemma {:induction false} MarkFuncs(all: seq<Func>, tabs: seq<seq<Binding>>, fs: seq<Func>, at: nat) returns (mark: seq<bool>)
    requires |tabs| == |fs| && LowerFuncs(tabs, fs, at).Some? && FewArgs(all)
    requires forall k :: 0 <= k < |fs| ==> GoodFunc(all, tabs[k], fs[k])
    ensures var (code, starts) := LowerFuncs(tabs, fs, at).value; Marks(code, mark) && EntriesClear(mark, starts, at)
    decreases |fs|
  {
    hide LowerBlock, GoodFunc, FewArgs, Marks;
    if fs == [] {
      mark := [];
      MarksNothing();
    } else {
      assert GoodFunc(all, tabs[0], fs[0]);
      var head := MarkFunc(all, tabs[0], fs[0]);
      var first := LowerBlock(tabs[0], fs[0].body).value;
      forall k | 0 <= k < |fs[1..]|
        ensures GoodFunc(all, tabs[1..][k], fs[1..][k])
      {
        assert GoodFunc(all, tabs[k + 1], fs[k + 1]);
      }
      var tail := MarkFuncs(all, tabs[1..], fs[1..], at + |first|);
      var (rest, starts) := LowerFuncs(tabs[1..], fs[1..], at + |first|).value;
      MarksCat(first, head, rest, tail);
      mark := head + tail;
      EntriesShift(head, tail, starts, at, |first|);
    }
  }

  lemma EntriesShift(head: seq<bool>, tail: seq<bool>, starts: seq<nat>, at: nat, n: nat)
    requires |head| == n > 0 && !head[0] && EntriesClear(tail, starts, at + n)
    ensures EntriesClear(head + tail, [at] + starts, at)
  {
    var all, mark := [at] + starts, head + tail;
    forall k | 0 <= k < |all|
      ensures 0 <= all[k] - at < |mark| && !mark[all[k] - at]
    {
      if k > 0 {
        assert all[k] == starts[k - 1];
        assert mark[all[k] - at] == tail[starts[k - 1] - (at + n)];
      }
    }
  }

  lemma MarkFunc(all: seq<Func>, tab: seq<Binding>, f: Func) returns (mark: seq<bool>)
    requires GoodFunc(all, tab, f) && FewArgs(all) && LowerBlock(tab, f.body).Some?
    ensures var code := LowerBlock(tab, f.body).value; Marks(code, mark) && |mark| == |code| > 0 && !mark[0]
  {
    hide LowerBlock, EndsInValue, NamedBlock, BlockHasCall, GoodTable, FewArgs;
    GoodRange(tab, FUNC_REG_BASE, FUNC_LAST);
    mark := MarkBlock(all, false, tab, f.body);
    ValueLast(tab, f.body);
  }

  /** The marking of a whole program, kernel and funcs. */
  lemma MarkProgram(p: Program, w: World, ktab: seq<Binding>, words: seq<int>) returns (mark: seq<bool>)
    requires Compiled(p, w, ktab, words)
    ensures Marks(LowerProgram(ktab, w.tabs, p).value.0, mark) && EntriesClear(mark, w.starts, 0)
  {
    hide LowerBlock, LowerKernel, Check, Compile, LowerFuncs, Link, GoodFunc, FewArgs, Marks, EntriesClear;
    AcceptedArgs(p);
    forall k | 0 <= k < |p.funcs|
      ensures GoodFunc(p.funcs, w.tabs[k], p.funcs[k])
    {
      AcceptedFunc(p, k);
    }
    var kernel := LowerKernel(ktab, p.kernels[0]).value;
    var head := MarkKernel(p);
    var tail := MarkFuncs(p.funcs, w.tabs, p.funcs, |kernel|);
    var (funcs, starts) := LowerFuncs(w.tabs, p.funcs, |kernel|).value;
    MarksCat(kernel, head, funcs, tail);
    mark := head + tail;
    MarksLength(kernel, head);
    EntriesMove(head, tail, starts, |kernel|);
  }

  lemma MarksLength(code: seq<Instr>, mark: seq<bool>)
    requires Marks(code, mark)
    ensures |mark| == |code|
  {
  }

  lemma EntriesMove(head: seq<bool>, tail: seq<bool>, starts: seq<nat>, n: nat)
    requires |head| == n && EntriesClear(tail, starts, n)
    ensures EntriesClear(head + tail, starts, 0)
  {
    forall k | 0 <= k < |starts|
      ensures 0 <= starts[k] < |head + tail| && !(head + tail)[starts[k]]
    {
      assert (head + tail)[starts[k]] == tail[starts[k] - n];
    }
  }

  // ----- runs -----

  predicate MarkedAt(mark: seq<bool>, pc: int) {
    0 <= pc < |mark| && mark[pc]
  }

  /** At a marked position, or with one to return to, the flags hold a comparison. */
  ghost predicate Guarded(mark: seq<bool>, s: Lane) {
    (MarkedAt(mark, s.pc) ==> Flag(s.nzp))
    && forall j :: 0 <= j < |s.stack| ==> MarkedAt(mark, s.stack[j]) ==> Flag(s.nzp)
  }

  lemma StepGuarded(w: World, code: seq<Instr>, mark: seq<bool>, s: Lane)
    requires Marks(code, mark) && EntriesClear(mark, w.starts, 0) && |w.fs| == |w.starts|
    requires w.prog == Link(w.fs, w.starts, code, 0) && Within(w.fs, true, code, 0, |code|) && Guarded(mark, s)
    ensures Guarded(mark, Step(w.ids, w.prog, s))
  {
    hide FindFunc, Read, AluResult, Load;
    var s' := Step(w.ids, w.prog, s);
    if !s.halted && 0 <= s.pc < |code| {
      var i := code[s.pc];
      assert w.prog[s.pc] == LinkInstr(w.fs, w.starts, i, s.pc);
    }
  }

  lemma {:induction false} RunGuarded(w: World, code: seq<Instr>, mark: seq<bool>, s: Lane, n: nat)
    requires Marks(code, mark) && EntriesClear(mark, w.starts, 0) && |w.fs| == |w.starts|
    requires w.prog == Link(w.fs, w.starts, code, 0) && Within(w.fs, true, code, 0, |code|) && Guarded(mark, s)
    ensures Guarded(mark, Isa.Run(w.ids, w.prog, s, n))
    decreases n
  {
    hide Marks, EntriesClear, Link, Within, Guarded, Step;
    if n > 0 {
      StepGuarded(w, code, mark, s);
      RunGuarded(w, code, mark, Step(w.ids, w.prog, s), n - 1);
    }
  }

  /** In every state of every run in which a branch is about to be executed, a comparison has set the flags,
      whatever they were at the start; so the branches meant to be taken always are. */
  lemma BranchesAfterCompare(p: Program, ids: Ids, s: Lane, n: nat)
    requires Compile(p).Some? && Start(s)
    ensures var words := Compile(p).value;
            var s' := Isa.Run(ids, DecodeAll(words), s, n);
            0 <= s'.pc < |words| && Decode(words[s'.pc]).Brnzp? ==>
              Flag(s'.nzp) && (Decode(words[s'.pc]).nzp == NZP_ALL ==> NzpMatch(s'.nzp, NZP_ALL))
  {
    hide Compile, LowerProgram, Check, Marks, EntriesClear, Within, Decode, Isa.Run, Start, WorldOf, Compiled, KernelTable;
    var w := WorldOf(p, ids);
    WordsDecode(p, ids);
    WorldRuns(p, ids, s, n);
    var s' := Isa.Run(ids, w.prog, s, n);
  }

  /** The same on the linked program. */
  lemma WorldRuns(p: Program, ids: Ids, s: Lane, n: nat)
    requires Compile(p).Some? && Start(s)
    ensures var prog := WorldOf(p, ids).prog;
            var s' := Isa.Run(ids, prog, s, n);
            0 <= s'.pc < |prog| && prog[s'.pc].Brnzp? ==> Flag(s'.nzp)
  {
    hide LowerProgram, Check, Marks, EntriesClear, Within, Isa.Run, Start, Guarded, Link, EncodeAll, DecodeAll;
    var w, ktab, words := WorldOf(p, ids), KernelTable(p), Compile(p).value;
    CompiledWorld(p, ids);
    CodeWithin(p, w, ktab, words);
    CodePlaced(p, w, ktab, words);
    var mark := MarkProgram(p, w, ktab, words);
    var code := LowerProgram(ktab, w.tabs, p).value.0;
    MarksStart(code, mark, s);
    RunGuarded(w, code, mark, s, n);
    BranchMarked(w, code, mark, Isa.Run(ids, w.prog, s, n));
  }

  lemma MarksStart(code: seq<Instr>, mark: seq<bool>, s: Lane)
    requires Marks(code, mark) && Start(s)
    ensures Guarded(mark, s)
  {
  }

  lemma BranchMarked(w: World, code: seq<Instr>, mark: seq<bool>, s: Lane)
    requires Marks(code, mark) && Guarded(mark, s) && w.prog == Link(w.fs, w.starts, code, 0)
    ensures 0 <= s.pc < |w.prog| && w.prog[s.pc].Brnzp? ==> Flag(s.nzp)
  {
  }
}
