/** The shape of emitted code: encodable instructions, and branches that stay in their own region. */
module Layout {
  import opened Isa
  import opened Lang
  import opened Sema
  import opened Lowering

  /** An instruction other than a branch; a call needs permission and a known func. */
  predicate Plain(fs: seq<Func>, calls: bool, i: Instr) {
    if i.CallTo? then calls && FindFunc(fs, i.name) < |fs| else Encodable(i) && !i.Brnzp? && !i.Call?
  }

  /** `code`, placed at `at` in a region, only branches to positions 0 to `last` of the region. */
  ghost predicate Within(fs: seq<Func>, calls: bool, code: seq<Instr>, at: int, last: int) {
    forall k :: 0 <= k < |code| ==>
      if code[k].Brnzp? then 0 <= code[k].nzp < 8 && 0 <= at + k + code[k].off <= last else Plain(fs, calls, code[k])
  }

  ghost predicate Straight(fs: seq<Func>, calls: bool, code: seq<Instr>) {
    forall k :: 0 <= k < |code| ==> Plain(fs, calls, code[k])
  }

  /** Control may run off the end of such code: its last instruction neither ends the kernel nor returns. */
  predicate Falls(code: seq<Instr>) {
    code != [] && (code[|code| - 1].Sync? || code[|code| - 1].Brnzp?)
  }

  /** Branches stay inside, and one that leaves at the end is in code that also falls off the end. */
  ghost predicate Tidy(fs: seq<Func>, calls: bool, code: seq<Instr>) {
    Within(fs, calls, code, 0, |code|) && (Falls(code) || Within(fs, calls, code, 0, |code| - 1))
  }

  /** Code that control leaves only by RET, SRET or CALL: it ends in RET or SRET and branches stay inside. */
  ghost predicate Region(fs: seq<Func>, calls: bool, code: seq<Instr>) {
    code != [] && (code[|code| - 1].Ret? || code[|code| - 1].Sret?) && Within(fs, calls, code, 0, |code| - 1)
  }

  lemma WithinCat(fs: seq<Func>, calls: bool, a: seq<Instr>, b: seq<Instr>, at: int, last: int)
    requires Within(fs, calls, a, at, last) && Within(fs, calls, b, at + |a|, last)
    ensures Within(fs, calls, a + b, at, last)
  {
    hide Plain;
    forall k | 0 <= k < |a + b|
      ensures var i := (a + b)[k];
              if i.Brnzp? then 0 <= i.nzp < 8 && 0 <= at + k + i.off <= last else Plain(fs, calls, i)
    {
      if k >= |a| {
        assert (a + b)[k] == b[k - |a|];
      }
    }
  }

  lemma WithinShift(fs: seq<Func>, calls: bool, code: seq<Instr>, last: int, at: int, last': int)
    requires Within(fs, calls, code, 0, last) && at >= 0 && at + last <= last'
    ensures Within(fs, calls, code, at, last')
  {
    hide Plain;
  }

  lemma StraightWithin(fs: seq<Func>, calls: bool, code: seq<Instr>, at: int, last: int)
    requires Straight(fs, calls, code)
    ensures Within(fs, calls, code, at, last)
  {
  }

  lemma StraightCat(fs: seq<Func>, calls: bool, a: seq<Instr>, b: seq<Instr>)
    requires Straight(fs, calls, a) && Straight(fs, calls, b)
    ensures Straight(fs, calls, a + b)
  {
    hide Plain;
  }

  lemma StraightTidy(fs: seq<Func>, calls: bool, code: seq<Instr>)
    requires Straight(fs, calls, code)
    ensures Tidy(fs, calls, code)
  {
    StraightWithin(fs, calls, code, 0, |code|);
    StraightWithin(fs, calls, code, 0, |code| - 1);
  }

  lemma TidyCat(fs: seq<Func>, calls: bool, a: seq<Instr>, b: seq<Instr>)
    requires Tidy(fs, calls, a) && Tidy(fs, calls, b)
    ensures Tidy(fs, calls, a + b)
  {
    hide Within;
    if b == [] {
      assert a + b == a;
    } else {
      WithinShift(fs, calls, a, |a|, 0, |a + b| - 1);
      WithinShift(fs, calls, a, |a|, 0, |a + b|);
      WithinShift(fs, calls, b, |b|, |a|, |a + b|);
      WithinCat(fs, calls, a, b, 0, |a + b|);
      if !Falls(b) {
        WithinShift(fs, calls, b, |b| - 1, |a|, |a + b| - 1);
        WithinCat(fs, calls, a, b, 0, |a + b| - 1);
      }
    }
  }

  // ----- expressions -----

  ghost predicate InRange(tab: seq<Binding>) {
    forall x :: -1 <= Lookup(tab, x) < TMP_BASE
  }

  lemma MovStraight(fs: seq<Func>, calls: bool, dst: int, src: int)
    requires IsReg(dst) && IsReg(src)
    ensures Straight(fs, calls, Mov(dst, src))
  {
  }

  lemma {:induction false} MovsStraight(fs: seq<Func>, calls: bool, src: seq<int>)
    requires |src| <= FUNC_MAX_VARS && forall i :: 0 <= i < |src| ==> IsReg(src[i])
    ensures Straight(fs, calls, Movs(FUNC_REG_BASE, src))
    decreases |src|
  {
    hide Straight, Mov;
    if src == [] {
      assert Straight(fs, calls, []) by { EmptyStraight(fs, calls); }
    } else {
      var k := |src| - 1;
      MovsStraight(fs, calls, src[..k]);
      MovStraight(fs, calls, FUNC_REG_BASE + k, src[k]);
      StraightCat(fs, calls, Movs(FUNC_REG_BASE, src[..k]), Mov(FUNC_REG_BASE + k, src[k]));
    }
  }

  lemma EmptyStraight(fs: seq<Func>, calls: bool)
    ensures Straight(fs, calls, [])
  {
  }

  lemma OneStraight(fs: seq<Func>, calls: bool, i: Instr)
    requires Plain(fs, calls, i)
    ensures Straight(fs, calls, [i])
  {
  }

  /** An expression's code is straight-line, and its value is in a real register. */
  lemma {:induction false} ExprStraight(fs: seq<Func>, calls: bool, tab: seq<Binding>, e: Expr, t: int)
    requires InRange(tab) && TMP_BASE <= t <= TMP_ONE && LowerExpr(tab, e, t).Good? && ExprOk(fs, tab, e)
    requires FewArgs(fs) && (HasCall(e) ==> calls)
    ensures var g := LowerExpr(tab, e, t); Straight(fs, calls, g.code) && IsReg(g.reg)
    decreases e, 2
  {
    hide InRange, Straight, Movs, Mov, Folds, AluInstr, FindFunc;
    EmptyStraight(fs, calls);
    LowerShape(tab, e, t);
    match e
    case Lit(v) => OneStraight(fs, calls, Const(t, v % 0x1_0000));
    case Var(x) => VarReg(tab, x);
    case Op(op, args) =>
      if Folds(e) {
        FoldRange(e);
        OneStraight(fs, calls, Const(t, Fold(e).value));
      } else {
        ExprsStraight(fs, calls, tab, args, t);
        var g := LowerAll(tab, args, t);
        AluPlain(fs, calls, op, t, g.regs);
        OneStraight(fs, calls, AluInstr(op, t, g.regs));
        StraightCat(fs, calls, g.code, [AluInstr(op, t, g.regs)]);
      }
    case MemLoad(a) =>
      ExprStraight(fs, calls, tab, a, t);
      var g := LowerExpr(tab, a, t);
      LowerShape(tab, a, t);
      OneStraight(fs, calls, Ldr(g.next, g.reg, 0));
      StraightCat(fs, calls, g.code, [Ldr(g.next, g.reg, 0)]);
    case CallF(f, args) => CallStraight(fs, calls, tab, e, t);
    case _ =>
  }

  lemma VarReg(tab: seq<Binding>, x: string)
    requires InRange(tab) && Lookup(tab, x) >= 0
    ensures IsReg(Lookup(tab, x))
  {
  }

  lemma FoldRange(e: Expr)
    requires Folds(e)
    ensures Fold(e).Some? && 0 <= Fold(e).value < 0x1_0000
  {
  }

  lemma AluPlain(fs: seq<Func>, calls: bool, op: Operator, rd: int, r: seq<int>)
    requires |r| == Arity(op) && !IsComparison(op) && IsReg(rd) && forall i :: 0 <= i < |r| ==> IsReg(r[i])
    ensures Plain(fs, calls, AluInstr(op, rd, r))
  {
  }

  /** Every func has few enough parameters for the func window. */
  ghost predicate FewArgs(fs: seq<Func>) {
    forall k :: 0 <= k < |fs| ==> |fs[k].params| <= FUNC_MAX_VARS
  }

  lemma CallStraight(fs: seq<Func>, calls: bool, tab: seq<Binding>, e: Expr, t: int)
    requires InRange(tab) && TMP_BASE <= t <= TMP_ONE && LowerExpr(tab, e, t).Good? && ExprOk(fs, tab, e)
    requires FewArgs(fs) && calls && e.CallF?
    ensures Straight(fs, calls, LowerExpr(tab, e, t).code)
    decreases e, 1
  {
    hide InRange, Straight, Movs, Mov, Folds, AluInstr, FindFunc;
    ExprsStraight(fs, calls, tab, e.args, t);
    LowerAllShape(tab, e.args, t);
    var g := LowerAll(tab, e.args, t);
    MovsStraight(fs, calls, g.regs);
    MovStraight(fs, calls, t, FUNC_REG_RET);
    OneStraight(fs, calls, CallTo(e.name));
    var movs, mov := Movs(FUNC_REG_BASE, g.regs), Mov(t, FUNC_REG_RET);
    StraightCat(fs, calls, g.code, movs);
    StraightCat(fs, calls, g.code + movs, [CallTo(e.name)]);
    StraightCat(fs, calls, g.code + movs + [CallTo(e.name)], mov);
  }

  lemma {:induction false} ExprsStraight(fs: seq<Func>, calls: bool, tab: seq<Binding>, es: seq<Expr>, t: int)
    requires InRange(tab) && TMP_BASE <= t <= TMP_ONE && LowerAll(tab, es, t).GoodAll? && ExprsOk(fs, tab, es)
    requires FewArgs(fs) && (HasCallAny(es) ==> calls)
    ensures var g := LowerAll(tab, es, t); Straight(fs, calls, g.code) && forall i :: 0 <= i < |g.regs| ==> IsReg(g.regs[i])
    decreases es, 0
  {
    hide InRange, Straight;
    EmptyStraight(fs, calls);
    if es != [] {
      var g := LowerExpr(tab, es[0], t);
      LowerShape(tab, es[0], t);
      ExprStraight(fs, calls, tab, es[0], t);
      ExprsStraight(fs, calls, tab, es[1..], g.next);
      StraightCat(fs, calls, g.code, LowerAll(tab, es[1..], g.next).code);
    }
  }

  // ----- statements -----

  lemma SetStraight(fs: seq<Func>, calls: bool, tab: seq<Binding>, x: string, e: Expr)
    requires InRange(tab) && LowerSet(tab, x, e).Some? && Lookup(tab, x) > 0 && ExprOk(fs, tab, e)
    requires FewArgs(fs) && (HasCall(e) ==> calls)
    ensures Straight(fs, calls, LowerSet(tab, x, e).value)
  {
    hide InRange, Straight, Mov, LowerExpr;
    ExprStraight(fs, calls, tab, e, TMP_BASE);
    var g := LowerExpr(tab, e, TMP_BASE);
    VarReg(tab, x);
    MovStraight(fs, calls, Lookup(tab, x), g.reg);
    StraightCat(fs, calls, g.code, Mov(Lookup(tab, x), g.reg));
  }

  /** An `if` whose parts are in order is in order: its two branches land inside or right behind it. */
  lemma IfTidy(fs: seq<Func>, calls: bool, test: seq<Instr>, op: Operator, l: int, r: int, els: seq<Instr>, thn: seq<Instr>)
    requires Straight(fs, calls, test) && IsReg(l) && IsReg(r) && Tidy(fs, calls, els) && Tidy(fs, calls, thn)
    ensures Tidy(fs, calls, IfCode(test, op, l, r, els, thn))
  {
    var code := IfCode(test, op, l, r, els, thn);
    var a, b := [Cmp(l, r), Brnzp(NzpForOp(op), 2 + |els|)], [Brnzp(NZP_ALL, 2 + |thn|), Nop];
    var n := |code|;
    assert n == |test| + |els| + |thn| + 5;
    assert Within(fs, calls, a, |test|, n) && Within(fs, calls, b, |test| + 2 + |els|, n);
    assert Within(fs, calls, [Sync], n - 1, n);
    assert code == test + a + els + b + thn + [Sync];
    hide Within, NzpForOp, IfCode;
    StraightWithin(fs, calls, test, 0, n);
    WithinCat(fs, calls, test, a, 0, n);
    WithinShift(fs, calls, els, |els|, |test + a|, n);
    WithinCat(fs, calls, test + a, els, 0, n);
    WithinCat(fs, calls, test + a + els, b, 0, n);
    WithinShift(fs, calls, thn, |thn|, |test + a + els + b|, n);
    WithinCat(fs, calls, test + a + els + b, thn, 0, n);
    WithinCat(fs, calls, test + a + els + b + thn, [Sync], 0, n);
  }

  lemma LoopTidy(fs: seq<Func>, calls: bool, test: seq<Instr>, v: int, b: int, body: seq<Instr>)
    requires Straight(fs, calls, test) && IsReg(v) && IsReg(b) && Tidy(fs, calls, body)
    ensures Tidy(fs, calls, LoopCode(test, v, b, body))
  {
    var code := LoopCode(test, v, b, body);
    var a := [Cmp(v, b), Brnzp(NZP_ZP, |body| + 3)];
    var z := [Alu(OP_ADD, v, v, TMP_ONE, 0), Brnzp(NZP_ALL, -(|test| + |body| + 3))];
    var n := |code|;
    assert n == |test| + |body| + 4;
    assert Within(fs, calls, a, |test|, n) && Within(fs, calls, z, |test| + 2 + |body|, n);
    assert code == test + a + body + z;
    hide Within, LoopCode;
    StraightWithin(fs, calls, test, 0, n);
    WithinCat(fs, calls, test, a, 0, n);
    WithinShift(fs, calls, body, |body|, |test + a|, n);
    WithinCat(fs, calls, test + a, body, 0, n);
    WithinCat(fs, calls, test + a + body, z, 0, n);
  }

  lemma {:induction false} StmtTidy(fs: seq<Func>, calls: bool, tab: seq<Binding>, s: Stmt)
    requires InRange(tab) && LowerStmt(tab, s).Some? && Named(fs, tab, s) && FewArgs(fs) && (StmtHasCall(s) ==> calls)
    ensures Tidy(fs, calls, LowerStmt(tab, s).value)
    decreases s, 1
  {
    hide InRange, Straight, Tidy, Mov, LowerSet, LowerExpr, FewArgs, HasCall, ExprOk;
    match s
    case Decl(x, e) => SetStraight(fs, calls, tab, x, e); StraightTidy(fs, calls, LowerSet(tab, x, e).value);
    case Assign(x, e) => SetStraight(fs, calls, tab, x, e); StraightTidy(fs, calls, LowerSet(tab, x, e).value);
    case Store(addr, val) => StoreStraight(fs, calls, tab, addr, val); StraightTidy(fs, calls, LowerStmt(tab, s).value);
    case If(cond, thn, els) =>
      CondCalls(cond);
      ExprsStraight(fs, calls, tab, cond.args, TMP_BASE);
      BlockTidy(fs, calls, tab, thn);
      BlockTidy(fs, calls, tab, els);
      var g := LowerAll(tab, cond.args, TMP_BASE);
      IfTidy(fs, calls, g.code, cond.op, g.regs[0], g.regs[1], LowerBlock(tab, els).value, LowerBlock(tab, thn).value);
    case For(_, _, _, _) => ForTidy(fs, calls, tab, s);
    case Return(_) => ReturnStraight(fs, calls, tab, s); StraightTidy(fs, calls, LowerStmt(tab, s).value);
  }

  lemma CondCalls(e: Expr)
    requires e.Op?
    ensures HasCall(e) == HasCallAny(e.args)
  {
  }

  lemma StoreStraight(fs: seq<Func>, calls: bool, tab: seq<Binding>, addr: Expr, val: Expr)
    requires InRange(tab) && LowerStmt(tab, Store(addr, val)).Some? && ExprOk(fs, tab, addr) && ExprOk(fs, tab, val)
    requires FewArgs(fs) && (HasCall(addr) || HasCall(val) ==> calls)
    ensures Straight(fs, calls, LowerStmt(tab, Store(addr, val)).value)
  {
    hide InRange, Straight, LowerExpr, FewArgs, HasCall, ExprOk;
    var es := [val, addr];
    var rest := es[1..];
    assert rest == [addr] && rest[1..] == [];
    assert ExprsOk(fs, tab, rest[1..]) && !HasCallAny(rest[1..]);
    assert ExprsOk(fs, tab, rest) && HasCallAny(rest) == HasCall(addr);
    assert ExprsOk(fs, tab, es) && HasCallAny(es) == (HasCall(val) || HasCall(addr));
    ExprsStraight(fs, calls, tab, es, TMP_BASE);
    var g := LowerAll(tab, es, TMP_BASE);
    OneStraight(fs, calls, Str(g.regs[0], g.regs[1], 0));
    StraightCat(fs, calls, g.code, [Str(g.regs[0], g.regs[1], 0)]);
  }

  lemma ReturnStraight(fs: seq<Func>, calls: bool, tab: seq<Binding>, s: Stmt)
    requires InRange(tab) && s.Return? && LowerStmt(tab, s).Some? && Named(fs, tab, s) && FewArgs(fs) && (StmtHasCall(s) ==> calls)
    ensures Straight(fs, calls, LowerStmt(tab, s).value)
  {
    hide InRange, Straight, Mov, LowerExpr, FewArgs, HasCall, ExprOk;
    match s.ret
    case None =>
      OneStraight(fs, calls, Ret);
    case Some(e) =>
      ExprStraight(fs, calls, tab, e, TMP_BASE);
      var g := LowerExpr(tab, e, TMP_BASE);
      MovStraight(fs, calls, FUNC_REG_RET, g.reg);
      OneStraight(fs, calls, Sret);
      var mov := Mov(FUNC_REG_RET, g.reg);
      StraightCat(fs, calls, g.code, mov);
      StraightCat(fs, calls, g.code + mov, [Sret]);
  }

  lemma ForTidy(fs: seq<Func>, calls: bool, tab: seq<Binding>, s: Stmt)
    requires InRange(tab) && s.For? && LowerStmt(tab, s).Some? && Named(fs, tab, s) && FewArgs(fs) && (StmtHasCall(s) ==> calls)
    ensures Tidy(fs, calls, LowerStmt(tab, s).value)
    decreases s, 0
  {
    hide InRange, Straight, Tidy, LowerSet, LowerExpr, FewArgs, HasCall, ExprOk;
    SetStraight(fs, calls, tab, s.v, s.init);
    ExprStraight(fs, calls, tab, s.bound, TMP_BASE);
    BlockTidy(fs, calls, tab, s.body);
    VarReg(tab, s.v);
    var init, b, body := LowerSet(tab, s.v, s.init).value, LowerExpr(tab, s.bound, TMP_BASE), LowerBlock(tab, s.body).value;
    LoopTidy(fs, calls, b.code, Lookup(tab, s.v), b.reg, body);
    OneStraight(fs, calls, Const(TMP_ONE, 1));
    StraightCat(fs, calls, init, [Const(TMP_ONE, 1)]);
    StraightTidy(fs, calls, init + [Const(TMP_ONE, 1)]);
    TidyCat(fs, calls, init + [Const(TMP_ONE, 1)], LoopCode(b.code, Lookup(tab, s.v), b.reg, body));
  }

  lemma {:induction false} BlockTidy(fs: seq<Func>, calls: bool, tab: seq<Binding>, b: Block)
    requires InRange(tab) && LowerBlock(tab, b).Some? && NamedBlock(fs, tab, b) && FewArgs(fs) && (BlockHasCall(b) ==> calls)
    ensures Tidy(fs, calls, LowerBlock(tab, b).value)
    decreases b, 0
  {
    hide InRange, Tidy, LowerStmt, FewArgs, StmtHasCall, Named;
    if b.Seq? {
      StmtTidy(fs, calls, tab, b.head);
      BlockTidy(fs, calls, tab, b.tail);
      TidyCat(fs, calls, LowerStmt(tab, b.head).value, LowerBlock(tab, b.tail).value);
    } else {
      EmptyStraight(fs, calls);
      StraightTidy(fs, calls, []);
    }
  }
}
