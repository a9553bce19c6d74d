/** Where the compiler does not keep its promises, and exactly how far they reach. */
module Limits {
  import opened Words
  import opened Isa
  import opened Lang
  import opened Sema
  import opened Lowering
  import opened Temporaries
  import opened Simulation
  import opened Preservation
  import opened Compiler
  import opened Correctness

  // ----- a temporary live across a call -----

  // kernel void k() { mem[0] = c + g(d); }   func int g(int a) { return a + 1; }

  function AddOne(): Func {
    Func("g", ["a"], Block.Seq(Return(Some(Op(Plus, [Var("a"), Lit(1)]))), End))
  }

  function CallSum(c: Int32, d: Int32): Expr {
    Op(Plus, [Lit(c), CallF("g", [Lit(d)])])
  }

  function SumProgram(c: Int32, d: Int32): Program {
    Program([Func("k", [], Block.Seq(Store(Lit(0), CallSum(c, d)), End))], [AddOne()])
  }

  const SUM_TABLES: (seq<seq<Binding>>, seq<seq<Binding>>) := ([[]], [[Binding("a", 14)]])

  function KernelPart(c: Int32, d: Int32): seq<Instr> {
    [Const(20, c % 0x1_0000), Const(21, d % 0x1_0000), Alu(OP_ADD, 14, 21, 0, 0), CallTo("g"), Alu(OP_ADD, 21, 19, 0, 0),
     Alu(OP_ADD, 20, 20, 21, 0), Const(21, 0), Str(20, 21, 0), Ret]
  }

  function FuncPart(): seq<Instr> {
    [Const(20, 1), Alu(OP_ADD, 20, 14, 20, 0), Alu(OP_ADD, 19, 20, 0, 0), Sret]
  }

  lemma OneOk(fs: seq<Func>, tab: seq<Binding>, e: Expr)
    requires ExprOk(fs, tab, e)
    ensures ExprsOk(fs, tab, [e])
  {
    assert [e][1..] == [];
  }

  lemma TwoOk(fs: seq<Func>, tab: seq<Binding>, a: Expr, b: Expr)
    requires ExprOk(fs, tab, a) && ExprOk(fs, tab, b)
    ensures ExprsOk(fs, tab, [a, b])
  {
    assert [a, b][1..] == [b];
    OneOk(fs, tab, b);
  }

  lemma AddOneChecked()
    ensures CheckFunc([AddOne()], AddOne()) == Some(Syms([Binding("a", 14)], 15, 18))
  {
    var fs, k := [AddOne()], Syms([Binding("a", 14)], 15, 18);
    assert Add(FuncSyms(), "a") == Some(k) by { assert [] + [Binding("a", 14)] == [Binding("a", 14)]; }
    assert ["a"][1..] == [];
    assert AddAll(FuncSyms(), ["a"]) == AddAll(k, []);
    TwoOk(fs, k.vars, Var("a"), Lit(1));
    var e := Op(Plus, [Var("a"), Lit(1)]);
    assert !HasCallAny(e.args[1..][1..]) && !HasCallAny(e.args[1..]) && !HasCall(e);
    assert CheckBlock(fs, k, AddOne().body, 0) == CheckBlock(fs, k, End, 0);
  }

  lemma KernelChecked(c: Int32, d: Int32)
    ensures CheckBody([AddOne()], KernelStart([AddOne()]), SumProgram(c, d).kernels[0]) == Some(Syms([], 1, 13))
  {
    var fs, k := [AddOne()], Syms([], 1, 13);
    assert FindFunc(fs, "g") == 0;
    OneOk(fs, [], Lit(d));
    TwoOk(fs, [], Lit(c), CallF("g", [Lit(d)]));
    var s := Store(Lit(0), CallSum(c, d));
    assert CheckStmt(fs, k, s, 0) == Some(k);
    assert CheckBlock(fs, k, Block.Seq(s, End), 0) == CheckBlock(fs, k, End, 0);
  }

  lemma SumChecked(c: Int32, d: Int32)
    ensures Check(SumProgram(c, d)) == Some(SUM_TABLES)
  {
    hide CheckFunc, CheckBody;
    var p := SumProgram(c, d);
    AddOneChecked();
    KernelChecked(c, d);
    var tab: seq<Binding>, none: seq<Binding> := [Binding("a", 14)], [];
    assert p.funcs[1..] == [] && p.kernels[1..] == [];
    assert [tab] + [] == [tab] && [none] + [] == [none];
    assert CheckFuncs(p.funcs, []) == Some([]) && CheckKernels(p.funcs, []) == Some([]);
    assert CheckFuncs(p.funcs, p.funcs) == Some([tab]);
    assert CheckKernels(p.funcs, p.kernels) == Some([none]);
  }

  lemma SumLowered(c: Int32, d: Int32)
    ensures LowerProgram([], SUM_TABLES.1, SumProgram(c, d)) == Some((KernelPart(c, d) + FuncPart(), [9]))
  {
    hide LowerBlock, LowerKernel;
    KernelLowered(c, d);
    FuncLowered();
    var fs := SumProgram(c, d).funcs;
    var tabs := SUM_TABLES.1;
    assert fs[1..] == [] && tabs[1..] == [];
    assert LowerFuncs([], [], 13) == Some(([], []));
    assert FuncPart() + [] == FuncPart() && [9] + [] == [9];
    assert LowerFuncs(tabs, fs, 9) == Some((FuncPart(), [9]));
  }

  lemma ArgLowered(d: Int32, t: int)
    requires t < TMP_ONE
    ensures LowerAll([], [Lit(d)], t) == GoodAll([Const(t, d % 0x1_0000)], [t], t + 1)
  {
    var es := [Lit(d)];
    assert es[1..] == [];
    assert LowerAll([], es[1..], t + 1) == GoodAll([], [], t + 1);
  }

  lemma CallLowered(d: Int32)
    ensures LowerExpr([], CallF("g", [Lit(d)]), 21)
            == Good([Const(21, d % 0x1_0000), Alu(OP_ADD, 14, 21, 0, 0), CallTo("g"), Alu(OP_ADD, 21, 19, 0, 0)], 21, 22)
  {
    ArgLowered(d, 21);
    assert Movs(14, [21]) == Movs(14, []) + Mov(14, 21) by { assert [21][..0] == []; }
  }

  lemma ValueLowered(c: Int32, d: Int32)
    ensures LowerExpr([], CallSum(c, d), 20) == Good(KernelPart(c, d)[..6], 20, 21)
  {
    var sum := CallSum(c, d);
    var call := CallF("g", [Lit(d)]);
    assert sum.args[1..] == [call] && [call][1..] == [];
    CallLowered(d);
    var code := LowerExpr([], call, 21).code;
    assert code + [] == code && [21] + [] == [21];
    assert LowerAll([], [], 22) == GoodAll([], [], 22);
    assert LowerAll([], [call], 21) == GoodAll(code, [21], 22);
    assert LowerAll([], sum.args, 20) == GoodAll([Const(20, c % 0x1_0000)] + code, [20, 21], 22);
    assert Fold(call).None? && !Folds(sum);
    assert KernelPart(c, d)[..6] == [Const(20, c % 0x1_0000)] + code + [Alu(OP_ADD, 20, 20, 21, 0)];
  }

  lemma KernelLowered(c: Int32, d: Int32)
    ensures LowerKernel([], SumProgram(c, d).kernels[0]) == Some(KernelPart(c, d))
  {
    var sum := CallSum(c, d);
    ValueLowered(c, d);
    var pair := [sum, Lit(0)];
    assert pair[1..] == [Lit(0)];
    ArgLowered(0, 21);
    var six := KernelPart(c, d)[..6];
    assert LowerAll([], pair, 20) == GoodAll(six + [Const(21, 0)], [20, 21], 22);
    hide LowerAll, LowerExpr;
    assert LowerStmt([], Store(Lit(0), sum)) == Some(six + [Const(21, 0)] + [Str(20, 21, 0)]);
    var eight := KernelPart(c, d)[..8];
    assert six + [Const(21, 0)] + [Str(20, 21, 0)] == eight && eight + [] == eight && [] + eight == eight;
    assert LowerBlock([], End) == Some([]);
    assert LowerBlock([], Block.Seq(Store(Lit(0), sum), End)) == Some(eight);
    assert LoadParams([], [], 0) == [];
    assert eight + [Ret] == KernelPart(c, d);
  }

  lemma FuncLowered()
    ensures LowerBlock([Binding("a", 14)], AddOne().body) == Some(FuncPart())
  {
    var tab := [Binding("a", 14)];
    var e := Op(Plus, [Var("a"), Lit(1)]);
    assert e.args[1..] == [Lit(1)] && e.args[1..][1..] == [];
    assert Fold(e.args[0]).None? && !Folds(e);
    assert LowerAll(tab, e.args[1..][1..], 21) == GoodAll([], [], 21);
    assert LowerAll(tab, e.args[1..], 20) == GoodAll([Const(20, 1)], [20], 21);
    assert LowerAll(tab, e.args, 20) == GoodAll([Const(20, 1)], [14, 20], 21);
    assert LowerExpr(tab, e, 20) == Good([Const(20, 1), Alu(OP_ADD, 20, 14, 20, 0)], 20, 21);
    assert LowerStmt(tab, Return(Some(e))).value == FuncPart();
    assert FuncPart() + [] == FuncPart();
  }

  function SumLinked(c: Int32, d: Int32): seq<Instr> {
    Link([AddOne()], [9], KernelPart(c, d) + FuncPart(), 0)
  }

  lemma SumCompiled(c: Int32, d: Int32, ids: Ids)
    ensures Compile(SumProgram(c, d)).Some? && DecodeAll(Compile(SumProgram(c, d)).value) == SumLinked(c, d)
  {
    hide LowerProgram, Check, Link;
    var p := SumProgram(c, d);
    SumChecked(c, d);
    SumLowered(c, d);
    assert Compile(p).Some?;
    WordsDecode(p, ids);
    assert WorldOf(p, ids).prog == SumLinked(c, d);
  }

  lemma SumFetched(c: Int32, d: Int32)
    ensures var q := SumLinked(c, d);
            && |q| == 13 && q[0] == Const(20, c % 0x1_0000) && q[1] == Const(21, d % 0x1_0000) && q[2] == Alu(OP_ADD, 14, 21, 0, 0)
            && q[3] == Isa.Call(6) && q[4] == Alu(OP_ADD, 21, 19, 0, 0) && q[5] == Alu(OP_ADD, 20, 20, 21, 0) && q[6] == Const(21, 0)
            && q[7] == Str(20, 21, 0) && q[8] == Ret
            && q[9] == Const(20, 1) && q[10] == Alu(OP_ADD, 20, 14, 20, 0) && q[11] == Alu(OP_ADD, 19, 20, 0, 0) && q[12] == Sret
  {
    assert FindFunc([AddOne()], "g") == 0;
  }

  lemma SumEnters(ids: Ids, c: Int32, d: Int32, s: Lane) returns (s': Lane)
    requires Start(s) && 0 <= c <= 0xFFFF && 0 <= d <= 0xFFFF
    ensures Isa.Run(ids, SumLinked(c, d), s, 4) == s'
    ensures s'.pc == 9 && s'.stack == [4] && !s'.halted && |s'.regs| == 32 && s'.mem == s.mem && s'.regs[14] == d && s'.regs[20] == c
  {
    SumFetched(c, d);
    var q := SumLinked(c, d);
    hide SumLinked;
    var s2 := SumLiterals(ids, c, d, s);
    var s3 := Step(ids, q, s2);
    assert s3.regs[14] == d && s3.regs[20] == c && s3.pc == 3 && s3.stack == [];
    s' := Step(ids, q, s3);
    assert Isa.Run(ids, q, s2, 2) == s';
    RunAdd(ids, q, s, 2, 2);
  }

  lemma SumLiterals(ids: Ids, c: Int32, d: Int32, s: Lane) returns (s': Lane)
    requires Start(s) && 0 <= c <= 0xFFFF && 0 <= d <= 0xFFFF
    ensures Isa.Run(ids, SumLinked(c, d), s, 2) == s'
    ensures s'.pc == 2 && s'.stack == [] && !s'.halted && |s'.regs| == 32 && s'.mem == s.mem && s'.regs[21] == d && s'.regs[20] == c
  {
    SumFetched(c, d);
    var q := SumLinked(c, d);
    hide SumLinked;
    var s1 := Step(ids, q, s);
    s' := Step(ids, q, s1);
    assert Isa.Run(ids, q, s, 2) == s';
  }

  /** Inside the func, R20 is taken for its own literal. */
  lemma SumInside(ids: Ids, c: Int32, d: Int32, s: Lane) returns (s': Lane)
    requires s.pc == 9 && s.stack == [4] && !s.halted && |s.regs| == 32 && s.regs[14] == d && 0 <= d <= 0xFFFF
    ensures Isa.Run(ids, SumLinked(c, d), s, 4) == s'
    ensures s'.pc == 4 && s'.stack == [] && !s'.halted && |s'.regs| == 32 && s'.mem == s.mem
    ensures s'.regs[19] == d + 1 && s'.regs[20] == d + 1
  {
    SumFetched(c, d);
    var q := SumLinked(c, d);
    hide SumLinked;
    var s1 := Step(ids, q, s);
    var s2 := Step(ids, q, s1);
    assert s2.regs[20] == d + 1 && s2.pc == 11;
    var s3 := Step(ids, q, s2);
    s' := Step(ids, q, s3);
    assert Isa.Run(ids, q, s, 2) == s2;
    assert Isa.Run(ids, q, s2, 2) == s';
    RunAdd(ids, q, s, 2, 2);
  }

  lemma SumReturns(ids: Ids, c: Int32, d: Int32, s: Lane) returns (s': Lane)
    requires s.pc == 4 && s.stack == [] && !s.halted && |s.regs| == 32 && 0 <= d <= 0xFFFF
    requires s.regs[19] == d + 1 && s.regs[20] == d + 1
    ensures Isa.Run(ids, SumLinked(c, d), s, 5) == s'
    ensures s'.halted && s'.mem == s.mem[0 := 2 * (d + 1)]
  {
    SumFetched(c, d);
    var q := SumLinked(c, d);
    hide SumLinked;
    var s1 := Step(ids, q, s);
    var s2 := Step(ids, q, s1);
    assert s2.regs[20] == 2 * (d + 1) && s2.pc == 6;
    var s3 := Step(ids, q, s2);
    assert s3.regs[20] == 2 * (d + 1) && s3.regs[21] == 0 && s3.pc == 7;
    var s4 := Step(ids, q, s3);
    assert s4.mem == s.mem[0 := 2 * (d + 1)] && s4.pc == 8;
    s' := Step(ids, q, s4);
    assert Isa.Run(ids, q, s, 2) == s2;
    assert Isa.Run(ids, q, s2, 3) == s';
    RunAdd(ids, q, s, 2, 3);
  }

  lemma CallMeaning(d: Int32, ids: Ids, mem: Memory, fuel: nat)
    requires 0 <= d <= 0xFFFF
    ensures Eval(1, [AddOne()], ids, CallF("g", [Lit(d)]), map[], mem, fuel) == Val(d + 1, mem)
  {
    var fs := [AddOne()];
    var env := map["a" := d];
    assert ["a"][..0] == [] && [d][..0] == [];
    assert Bind(["a"], [d]) == env;
    var e := Op(Plus, [Var("a"), Lit(1)]);
    SignedRange(d + 1);
    assert Eval(0, fs, ids, e, env, mem, fuel) == Val(d + 1, mem) by { EvalTwo(0, fs, ids, e.args, env, mem, fuel); }
    assert RunBlock(0, fs, ids, AddOne().body, env, mem, fuel) == Result(d + 1, mem);
    assert FindFunc(fs, "g") == 0;
    EvalOne(1, fs, ids, [Lit(d)], map[], mem, fuel);
  }

  lemma SumMeaning(c: Int32, d: Int32, ids: Ids, mem: Memory, fuel: nat)
    requires 0 <= c <= 0xFFFF && 0 <= d <= 0xFFFF
    ensures Meaning(SumProgram(c, d), ids, mem, fuel) == Normal(map[], mem[0 := c + d + 1])
  {
    hide FindFunc;
    var fs, sum := [AddOne()], CallSum(c, d);
    CallMeaning(d, ids, mem, fuel);
    EvalTwo(1, fs, ids, sum.args, map[], mem, fuel);
    SignedRange(c + d + 1);
    assert Eval(1, fs, ids, sum, map[], mem, fuel) == Val(c + (d + 1), mem);
    hide EvalAll;
    assert Eval(1, fs, ids, Lit(0), map[], mem, fuel) == Val(0, mem);
    var store := Store(Lit(0), sum);
    assert RunStmt(1, fs, ids, store, map[], mem, fuel) == Normal(map[], mem[0 := c + d + 1]);
    assert RunBlock(1, fs, ids, End, map[], mem[0 := c + d + 1], fuel) == Normal(map[], mem[0 := c + d + 1]);
    assert RunBlock(1, fs, ids, Block.Seq(store, End), map[], mem, fuel) == Normal(map[], mem[0 := c + d + 1]);
    assert ParamEnv([], mem) == map[];
  }

  /** Operands evaluated before a call are not safe from it, as the register convention claims they are:
      `c + g(d)` stores 2(d + 1), the func having overwritten the temporary of `c`. That is the sum only for c = d + 1. */
  lemma OperandLost(ids: Ids, c: Int32, d: Int32, s: Lane, fuel: nat)
    requires Start(s) && 0 <= c <= 0xFFFF && 0 <= d <= 0xFFFF
    ensures var p := SumProgram(c, d);
            && Compile(p).Some? && !CleanProgram(p)
            && Meaning(p, ids, s.mem, fuel) == Normal(map[], s.mem[0 := c + d + 1])
            && var s' := Isa.Run(ids, DecodeAll(Compile(p).value), s, 13);
               s'.halted && s'.mem == s.mem[0 := 2 * (d + 1)]
               && (s'.mem == Meaning(p, ids, s.mem, fuel).mem <==> c == d + 1)
  {
    hide Compile, Meaning, SumLinked, Isa.Run, DecodeAll;
    SumCompiled(c, d, ids);
    SumMeaning(c, d, ids, s.mem, fuel);
    var s1 := SumEnters(ids, c, d, s);
    var s2 := SumInside(ids, c, d, s1);
    var s3 := SumReturns(ids, c, d, s2);
    RunAdd(ids, SumLinked(c, d), s, 4, 4);
    RunAdd(ids, SumLinked(c, d), s, 8, 5);
    assert s.mem[0 := c + d + 1][0] == c + d + 1 && s.mem[0 := 2 * (d + 1)][0] == 2 * (d + 1);
    SumNotClean(c, d);
  }

  lemma SumNotClean(c: Int32, d: Int32)
    ensures !CleanProgram(SumProgram(c, d))
  {
    var fs, sum, call := [AddOne()], CallSum(c, d), CallF("g", [Lit(d)]);
    AddOneNeed();
    assert FindFunc(fs, "g") == 0;
    LastOperand(fs, Lit(d), TMP_BASE + 1);
    assert CallsOf(fs, call) == Some(1);
    BothOperands(fs, Lit(c), call, TMP_BASE);
    assert !SafeExpr(fs, sum, TMP_BASE);
    BothOperands(fs, sum, Lit(0), TMP_BASE);
    assert !Clean(fs, Store(Lit(0), sum));
    assert !CleanBlock(fs, Block.Seq(Store(Lit(0), sum), End));
  }

  lemma AddOneNeed()
    ensures BlockNeed(AddOne().body) == 1
  {
    var e := Op(Plus, [Var("a"), Lit(1)]);
    assert e.args[1..] == [Lit(1)] && e.args[1..][1..] == [];
    assert NeedAll(e.args[1..][1..]) == 0 && NeedAll(e.args[1..]) == 1;
    assert Need(e) == 1 && StmtNeed(Return(Some(e))) == 1;
  }

  /** The same sum is safe from a func that needs no temporary: `int g(int a) { return a; }`. */
  lemma IdentityClean(c: Int32, d: Int32)
    requires 0 <= c <= 0xFFFF && 0 <= d <= 0xFFFF
    ensures CleanProgram(Program(SumProgram(c, d).kernels, [Func("g", ["a"], Block.Seq(Return(Some(Var("a"))), End))]))
  {
    var body := Block.Seq(Return(Some(Var("a"))), End);
    var fs, sum, call := [Func("g", ["a"], body)], CallSum(c, d), CallF("g", [Lit(d)]);
    assert FindFunc(fs, "g") == 0 && BlockNeed(End) == 0 && BlockNeed(body) == 0 && FuncNeed(fs, "g") == 0;
    LastOperand(fs, Lit(d), TMP_BASE + 1);
    assert SafeExpr(fs, call, TMP_BASE + 1) && LitsFit(call) && CallsOf(fs, call) == Some(0);
    BothOperands(fs, Lit(c), call, TMP_BASE);
    assert SafeExpr(fs, sum, TMP_BASE) && LitsFit(sum);
    BothOperands(fs, sum, Lit(0), TMP_BASE);
    assert FineAll(fs, [sum, Lit(0)], TMP_BASE);
    assert CleanBlock(fs, End) && CleanBlock(fs, body);
    assert CleanBlock(fs, Block.Seq(Store(Lit(0), sum), End));
  }

  lemma LastOperand(fs: seq<Func>, e: Expr, t: int)
    ensures SafeAll(fs, [e], t) <==> SafeExpr(fs, e, t)
    ensures CallsOfAll(fs, [e]) == CallsOf(fs, e) && (LitsFitAll([e]) <==> LitsFit(e))
  {
    assert [e][1..] == [];
    assert CallsOfAll(fs, []) == None;
  }

  lemma BothOperands(fs: seq<Func>, a: Expr, b: Expr, t: int)
    ensures SafeAll(fs, [a, b], t) <==> SafeExpr(fs, a, t) && SafeExpr(fs, b, t + Held(a)) && OutOfReach(a, t, CallsOf(fs, b))
    ensures LitsFitAll([a, b]) <==> LitsFit(a) && LitsFit(b)
  {
    hide SafeExpr, LitsFit, OutOfReach, CallsOf;
    assert [a, b][1..] == [b];
    LastOperand(fs, b, t + Held(a));
  }

  // ----- literals -----

  /** A literal reaches its register unchanged exactly if it fits the 16 bits of a CONST. */
  lemma LiteralExact(ids: Ids, tab: seq<Binding>, v: Int32, t: int, s: Lane)
    requires TMP_BASE <= t < TMP_ONE && |s.regs| == 32
    ensures LowerExpr(tab, Lit(v), t) == Good([Const(t, v % 0x1_0000)], t, t + 1)
    ensures Read(ids, Exec(ids, Const(t, v % 0x1_0000), s), t) == U32(v) <==> 0 <= v <= 0xFFFF
  {
    SignedRange(v);
  }

  // ----- a kernel that returns a value -----

  // kernel void k() { return 1; }

  function ReturnOne(): Program {
    Program([Func("k", [], Block.Seq(Return(Some(Lit(1))), End))], [])
  }

  /** The program is accepted, compiled and clean, and it never halts: its SRET starts it again and again. */
  lemma ReturnOneRestarts(ids: Ids, s: Lane, fuel: nat, n: nat)
    requires Start(s)
    ensures var p := ReturnOne();
            && Compile(p).Some? && CleanProgram(p) && Meaning(p, ids, s.mem, fuel) == Result(1, s.mem)
            && !Isa.Run(ids, DecodeAll(Compile(p).value), s, n).halted
  {
    hide Compile, DecodeAll, Isa.Run;
    var p := ReturnOne();
    ReturnOneCompiles();
    forall m: Memory
      ensures Meaning(p, ids, m, fuel) == Result(1, m)
    {
      hide ParamEnv;
      var env := ParamEnv([], m);
      assert Eval(1, [], ids, Lit(1), env, m, fuel) == Val(1, m);
      assert RunStmt(1, [], ids, Return(Some(Lit(1))), env, m, fuel) == Result(1, m);
    }
    RestartsForever(p, ids, s, fuel, n);
  }

  lemma ReturnOneCompiles()
    ensures Compile(ReturnOne()).Some? && CleanProgram(ReturnOne())
  {
    var p := ReturnOne();
    var body := p.kernels[0].body;
    var none: seq<Binding> := [];
    assert CheckBlock([], Syms([], 1, MAX_VARS), body, 0) == CheckBlock([], Syms([], 1, MAX_VARS), End, 0);
    assert p.kernels[1..] == [] && [none] + [] == [none];
    assert CheckKernels([], []) == Some([]) && CheckFuncs([], []) == Some([]);
    assert Check(p) == Some(([none], []));
    var code := [Const(20, 1), Alu(OP_ADD, 19, 20, 0, 0), Sret];
    assert LowerBlock(none, End) == Some([]) && code + [] == code;
    assert LowerExpr(none, Lit(1), 20) == Good([Const(20, 1)], 20, 21) && code == [Const(20, 1)] + Mov(19, 20) + [Sret];
    assert LowerStmt(none, Return(Some(Lit(1)))) == Some(code);
    assert LowerBlock(none, body) == Some(code);
    assert LoadParams(none, [], 0) + code == code;
    assert LowerKernel(none, p.kernels[0]) == Some(code + [Ret]);
    assert LowerFuncs([], [], 4) == Some(([], []));
  }

  // ----- a comparison as an operand -----

  // kernel void k(int a) { int x = a < 1; }

  function CompareValue(): Program {
    Program([Func("k", ["a"], Block.Seq(Decl("x", Op(Lt, [Var("a"), Lit(1)])), End))], [])
  }

  /** Acceptance and enough temporaries are not enough: a comparison that is not the condition of an `if` is accepted,
      needs one temporary, and is rejected by the generator. */
  lemma ComparisonRejected()
    ensures var p := CompareValue(); Check(p).Some? && BlockNeed(p.kernels[0].body) == 1 && Compile(p).None?
  {
    var p := CompareValue();
    var e := Op(Lt, [Var("a"), Lit(1)]);
    var rest := e.args[1..];
    assert rest == [Lit(1)] && rest[1..] == [];
    assert NeedAll(rest[1..]) == 0 && Need(Lit(1)) == 1 && Held(Lit(1)) == 1;
    assert NeedAll(rest) == 1 && e.args[0] == Var("a") && Fold(e.args[0]).None?;
    assert NeedAll(e.args) == 1 && Fold(e).None?;
    CompareChecked();
    hide Check;
    assert !Sound(Check(p).value.0[0], p.kernels[0].body.head);
    CompileExact(p);
  }

  lemma CompareChecked()
    ensures Check(CompareValue()).Some?
  {
    var p := CompareValue();
    var k0, k1 := Syms([], 1, MAX_VARS), Syms([Binding("a", 1)], 2, MAX_VARS);
    assert Add(k0, "a") == Some(k1) by { assert [] + [Binding("a", 1)] == [Binding("a", 1)]; }
    assert ["a"][1..] == [];
    assert AddAll(k0, ["a"]) == AddAll(k1, []);
    TwoOk([], k1.vars, Var("a"), Lit(1));
    var s := p.kernels[0].body.head;
    assert CheckStmt([], k1, s, 0).Some?;
    assert CheckBlock([], k1, p.kernels[0].body, 0) == CheckBlock([], CheckStmt([], k1, s, 0).value, End, 0);
    assert p.kernels[1..] == [] && CheckKernels([], []) == Some([]) && CheckFuncs([], []) == Some([]);
  }
}
