/** The code generator as it runs: one pass that appends to the instruction buffer, reuses temporaries,
    and patches branches and calls in place. Every method is proved against the functions of `Lowering`. */
module Codegen {
  import opened Words
  import opened Isa
  import opened Lang
  import opened Sema
  import opened Lowering
  import Checker
  import opened Emit
  import opened Layout
  import opened Compiler

  // ----- what a step of the generator comes to -----

  /** Appending `want` to what has been emitted; None stands for a failure, also for lack of room. */
  function Extend(done: Option<seq<Instr>>, want: Option<seq<Instr>>): Option<seq<Instr>> {
    if done.None? || want.None? || |done.value| + |want.value| > MAX_INSTRUCTIONS then None
    else Some(done.value + want.value)
  }

  function Cat(a: Option<seq<Instr>>, b: Option<seq<Instr>>): Option<seq<Instr>> {
    if a.None? || b.None? then None else Some(a.value + b.value)
  }

  lemma ExtendCat(done: Option<seq<Instr>>, a: Option<seq<Instr>>, b: Option<seq<Instr>>)
    ensures Extend(Extend(done, a), b) == Extend(done, Cat(a, b))
  {
    if done.Some? && a.Some? && b.Some? {
      assert (done.value + a.value) + b.value == done.value + (a.value + b.value);
    }
  }

  lemma ExtendFour(done: Option<seq<Instr>>, a: Option<seq<Instr>>, b: Option<seq<Instr>>, c: Option<seq<Instr>>, d: Option<seq<Instr>>)
    ensures Extend(Extend(Extend(Extend(done, a), b), c), d) == Extend(done, Cat(Cat(Cat(a, b), c), d))
  {
    hide Extend, Cat;
    ExtendCat(done, a, b);
    ExtendCat(done, Cat(a, b), c);
    ExtendCat(done, Cat(Cat(a, b), c), d);
  }

  lemma CatAssoc(a: Option<seq<Instr>>, b: Option<seq<Instr>>, c: Option<seq<Instr>>)
    ensures Cat(Cat(a, b), c) == Cat(a, Cat(b, c))
  {
    if a.Some? && b.Some? && c.Some? {
      assert (a.value + b.value) + c.value == a.value + (b.value + c.value);
    }
  }

  lemma CatNothing(a: Option<seq<Instr>>)
    ensures Cat(a, Some([])) == a && Cat(Some([]), a) == a
  {
    if a.Some? {
      assert a.value + [] == a.value && [] + a.value == a.value;
    }
  }

  function CodeOf(g: Lowered): Option<seq<Instr>> {
    match g case Bad => None case Good(code, _, _) => Some(code)
  }

  function CodeOfAll(g: LoweredAll): Option<seq<Instr>> {
    match g case BadAll => None case GoodAll(code, _, _) => Some(code)
  }

  /** The rest of an operand list, behind operands already lowered. */
  function Behind(code: seq<Instr>, regs: seq<int>, rest: LoweredAll): LoweredAll {
    match rest case BadAll => BadAll case GoodAll(c, r, next) => GoodAll(code + c, regs + r, next)
  }

  lemma BehindOne(tab: seq<Binding>, code: seq<Instr>, regs: seq<int>, es: seq<Expr>, t: int)
    requires es != []
    ensures var g := LowerExpr(tab, es[0], t);
            Behind(code, regs, LowerAll(tab, es, t))
            == if g.Bad? then BadAll else Behind(code + g.code, regs + [g.reg], LowerAll(tab, es[1..], g.next))
  {
    hide LowerExpr;
    var g := LowerExpr(tab, es[0], t);
    if g.Good? && LowerAll(tab, es[1..], g.next).GoodAll? {
      var rest := LowerAll(tab, es[1..], g.next);
      assert code + (g.code + rest.code) == (code + g.code) + rest.code;
      assert regs + ([g.reg] + rest.regs) == (regs + [g.reg]) + rest.regs;
    }
  }

  lemma BehindNothing(rest: LoweredAll)
    ensures Behind([], [], rest) == rest
  {
    if rest.GoodAll? {
      assert [] + rest.code == rest.code && [] + rest.regs == rest.regs;
    }
  }

  /** The calls still to be patched, in order of position. */
  function Sites(code: seq<Instr>): seq<(nat, string)> {
    if code == [] then []
    else
      var n := |code| - 1;
      Sites(code[..n]) + if code[n].CallTo? then [(n, code[n].name)] else []
  }

  lemma SitesPush(code: seq<Instr>, i: Instr)
    ensures Sites(code + [i]) == Sites(code) + if i.CallTo? then [(|code|, i.name)] else []
  {
    assert (code + [i])[..|code|] == code;
  }

  /** Patching a branch leaves the calls alone. */
  lemma {:induction false} SitesPatch(code: seq<Instr>, k: nat, i: Instr)
    requires k < |code| && !code[k].CallTo? && !i.CallTo?
    ensures Sites(code[k := i]) == Sites(code)
    decreases |code|
  {
    var n := |code| - 1;
    if k == n {
      assert code[k := i][..n] == code[..n];
    } else {
      assert code[k := i][..n] == code[..n][k := i];
      SitesPatch(code[..n], k, i);
    }
  }

  class CGen {
    const buf: InstrBuf
    var syms: seq<Binding>
    var hadError: bool
    var nextTmp: int
    var callSites: seq<(nat, string)>

    ghost predicate Valid()
      reads this, buf, buf.instructions
    {
      buf.Valid() && TMP_BASE <= nextTmp <= TMP_ONE && (!buf.overflow ==> callSites == Sites(buf.code))
    }

    /** What has been emitted so far, or None after an error or an overflow. */
    ghost function Output(): Option<seq<Instr>>
      reads this, buf
    {
      if hadError || buf.overflow then None else Some(buf.code)
    }

    constructor (b: InstrBuf, tab: seq<Binding>)
      requires b.Valid() && !b.overflow && b.code == []
      ensures Valid() && Output() == Some([]) && buf == b && syms == tab && nextTmp == TMP_BASE
    {
      buf := b;
      syms := tab;
      hadError := false;
      nextTmp := TMP_BASE;
      callSites := [];
    }

    // ----- temporaries and single instructions -----

    /** The next temporary, or an error when R27 is taken. */
    method AllocTmp() returns (t: int)
      requires Valid()
      modifies this`nextTmp, this`hadError
      ensures Valid()
      ensures old(nextTmp) < TMP_ONE ==> t == old(nextTmp) && nextTmp == t + 1 && hadError == old(hadError)
      ensures old(nextTmp) >= TMP_ONE ==> hadError && nextTmp == old(nextTmp)
    {
      if nextTmp >= TMP_ONE {
        hadError := true;
        return TMP_ONE - 1;
      }
      t := nextTmp;
      nextTmp := nextTmp + 1;
    }

    /** An instruction that is not a call. */
    method EmitInstr(i: Instr)
      requires Valid() && !i.CallTo?
      modifies buf, buf.instructions
      ensures Valid() && Output() == Extend(old(Output()), Some([i]))
    {
      hide Sites;
      SitesPush(buf.code, i);
      buf.Push(i);
    }

    method EmitMov(dst: int, src: int)
      requires Valid()
      modifies buf, buf.instructions
      ensures Valid() && Output() == Extend(old(Output()), Some(Mov(dst, src)))
    {
      hide Sites;
      if dst != src {
        EmitInstr(Alu(OP_ADD, dst, src, 0, 0));
      } else {
        ExtendNothing(Output());
      }
    }

    /** Moves into the func window, one argument after the other. */
    method EmitMovs(src: seq<int>)
      requires Valid()
      modifies buf, buf.instructions
      ensures Valid() && Output() == Extend(old(Output()), Some(Movs(FUNC_REG_BASE, src)))
    {
      hide Mov, Sites, Extend, Cat;
      ExtendNothing(Output());
      for i := 0 to |src|
        invariant Valid() && Output() == Extend(old(Output()), Some(Movs(FUNC_REG_BASE, src[..i])))
      {
        MovsOne(FUNC_REG_BASE, src, i);
        EmitMov(FUNC_REG_BASE + i, src[i]);
        ExtendCat(old(Output()), Some(Movs(FUNC_REG_BASE, src[..i])), Some(Mov(FUNC_REG_BASE + i, src[i])));
      }
      assert src[..|src|] == src;
    }

    method EmitCall(name: string)
      requires Valid()
      modifies this`callSites, buf, buf.instructions
      ensures Valid() && Output() == Extend(old(Output()), Some([CallTo(name)]))
    {
      hide Sites;
      SitesPush(buf.code, CallTo(name));
      var idx := buf.count;
      buf.Push(CallTo(name));
      callSites := callSites + [(idx, name)];
    }

    // ----- expressions -----

    method EvalExpr(e: Expr) returns (r: int)
      requires Valid()
      modifies this`hadError, this`nextTmp, this`callSites, buf, buf.instructions
      ensures Valid()
      ensures var g := LowerExpr(syms, e, old(nextTmp));
              Output() == Extend(old(Output()), CodeOf(g)) && (Output().Some? ==> r == g.reg && nextTmp == g.next)
      decreases e, 1
    {
      hide Sites, Folds;
      ExtendNothing(Output());
      match e
      case Lit(v) =>
        r := AllocTmp();
        EmitInstr(Const(r, v % 0x1_0000));
      case Var(x) =>
        r := Lookup(syms, x);
        if r < 0 {
          hadError := true;
          r := 0;
        }
      case ThreadIdx => r := 29;
      case BlockIdx => r := 30;
      case BlockDim => r := 31;
      case Op(_, _) => r := EvalOp(e);
      case MemLoad(a) =>
        var addr := EvalExpr(a);
        ghost var t := nextTmp;
        r := AllocTmp();
        EmitInstr(Ldr(r, addr, 0));
        ExtendCat(old(Output()), CodeOf(LowerExpr(syms, a, old(nextTmp))), Some([Ldr(t, addr, 0)]));
      case CallF(f, args) => r := EvalCall(f, args);
    }

    /** The operands' temporaries are given back before the destination is taken, so it may alias one of them. */
    method EvalOp(e: Expr) returns (r: int)
      requires Valid() && e.Op?
      modifies this`hadError, this`nextTmp, this`callSites, buf, buf.instructions
      ensures Valid()
      ensures var g := LowerExpr(syms, e, old(nextTmp));
              Output() == Extend(old(Output()), CodeOf(g)) && (Output().Some? ==> r == g.reg && nextTmp == g.next)
      decreases e, 0
    {
      hide Sites, AluInstr, Fold;
      if Folds(e) {
        r := AllocTmp();
        EmitInstr(Const(r, Fold(e).value));
        return;
      }
      var mark := nextTmp;
      var regs := EvalArgs(e.args);
      nextTmp := mark;
      r := AllocTmp();
      if |regs| != Arity(e.op) || IsComparison(e.op) {
        hadError := true;
      } else {
        AluKind(e.op, r, regs);
        EmitInstr(AluInstr(e.op, r, regs));
        ExtendCat(old(Output()), CodeOfAll(LowerAll(syms, e.args, mark)), Some([AluInstr(e.op, r, regs)]));
      }
    }

    method EvalCall(f: string, args: seq<Expr>) returns (r: int)
      requires Valid()
      modifies this`hadError, this`nextTmp, this`callSites, buf, buf.instructions
      ensures Valid()
      ensures var g := LowerExpr(syms, CallF(f, args), old(nextTmp));
              Output() == Extend(old(Output()), CodeOf(g)) && (Output().Some? ==> r == g.reg && nextTmp == g.next)
      decreases args
    {
      hide Sites, Movs, Mov;
      var mark := nextTmp;
      var regs := EvalArgs(args);
      EmitMovs(regs);
      nextTmp := mark;
      EmitCall(f);
      r := AllocTmp();
      EmitMov(r, FUNC_REG_RET);
      ExtendFour(old(Output()), CodeOfAll(LowerAll(syms, args, mark)), Some(Movs(FUNC_REG_BASE, regs)), Some([CallTo(f)]), Some(Mov(r, FUNC_REG_RET)));
    }

    method EvalArgs(es: seq<Expr>) returns (regs: seq<int>)
      requires Valid()
      modifies this`hadError, this`nextTmp, this`callSites, buf, buf.instructions
      ensures Valid() && |regs| == |es|
      ensures var g := LowerAll(syms, es, old(nextTmp));
              Output() == Extend(old(Output()), CodeOfAll(g)) && (Output().Some? ==> regs == g.regs && nextTmp == g.next)
      decreases es, 0
    {
      hide Sites, LowerExpr;
      regs := [];
      ghost var done: seq<Instr> := [];
      BehindNothing(LowerAll(syms, es, nextTmp));
      ExtendNothing(Output());
      for i := 0 to |es|
        invariant Valid() && |regs| == i
        invariant Output().Some? ==>
                    && Output() == Extend(old(Output()), Some(done))
                    && LowerAll(syms, es, old(nextTmp)) == Behind(done, regs, LowerAll(syms, es[i..], nextTmp))
        invariant Output().None? ==> Extend(old(Output()), CodeOfAll(LowerAll(syms, es, old(nextTmp)))).None?
      {
        ghost var g := LowerExpr(syms, es[i], nextTmp);
        BehindOne(syms, done, regs, es[i..], nextTmp);
        assert es[i..][1..] == es[i + 1..];
        var r := EvalExpr(es[i]);
        regs := regs + [r];
        ExtendCat(old(Output()), Some(done), CodeOf(g));
        if g.Good? {
          done := done + g.code;
        }
      }
      assert es[|es|..] == [] && done + [] == done && regs + [] == regs;
    }

    // ----- statements -----

    method EmitStmt(s: Stmt)
      requires Valid()
      modifies this`hadError, this`nextTmp, this`callSites, buf, buf.instructions
      ensures Valid() && Output() == Extend(old(Output()), LowerStmt(syms, s))
      decreases s, 1
    {
      hide Sites, LowerSet, LowerBlock, LowerExpr, IfCode, LoopCode;
      nextTmp := TMP_BASE;
      if hadError {
        return;
      }
      match s
      case Decl(x, e) => EmitSet(x, e);
      case Assign(x, e) => EmitSet(x, e);
      case Store(addr, val) => EmitStore(addr, val);
      case If(_, _, _) => EmitIf(s);
      case For(_, _, _, _) => EmitFor(s);
      case Return(None) => EmitInstr(Ret);
      case Return(Some(e)) =>
        var src := EvalExpr(e);
        EmitMov(FUNC_REG_RET, src);
        EmitInstr(Sret);
        ghost var code, mov := CodeOf(LowerExpr(syms, e, TMP_BASE)), Some(Mov(FUNC_REG_RET, src));
        ExtendCat(old(Output()), code, mov);
        ExtendCat(old(Output()), Cat(code, mov), Some([Sret]));
    }

    method EmitSet(x: string, e: Expr)
      requires Valid() && nextTmp == TMP_BASE
      modifies this`hadError, this`nextTmp, this`callSites, buf, buf.instructions
      ensures Valid() && Output() == Extend(old(Output()), LowerSet(syms, x, e))
    {
      hide Sites, LowerExpr, Mov;
      var dst := Lookup(syms, x);
      var src := EvalExpr(e);
      EmitMov(dst, src);
      ExtendCat(old(Output()), CodeOf(LowerExpr(syms, e, TMP_BASE)), Some(Mov(dst, src)));
    }

    method EmitStore(addr: Expr, val: Expr)
      requires Valid() && nextTmp == TMP_BASE
      modifies this`hadError, this`nextTmp, this`callSites, buf, buf.instructions
      ensures Valid() && Output() == Extend(old(Output()), LowerStmt(syms, Store(addr, val)))
    {
      hide Sites, LowerExpr, LowerAll;
      PairLowering(syms, val, addr, nextTmp);
      var v := EvalExpr(val);
      ghost var t := nextTmp;
      var a := EvalExpr(addr);
      EmitInstr(Str(v, a, 0));
      ghost var c, d := CodeOf(LowerExpr(syms, val, TMP_BASE)), CodeOf(LowerExpr(syms, addr, t));
      ExtendCat(old(Output()), c, d);
      ExtendCat(old(Output()), Cat(c, d), Some([Str(v, a, 0)]));
    }

    /** The comparison of an `if` and its branch, still a placeholder. */
    method EmitCond(cond: Expr) returns (nzp: int)
      requires Valid() && nextTmp == TMP_BASE
      modifies this`hadError, this`nextTmp, this`callSites, buf, buf.instructions
      ensures Valid() && Output() == Extend(old(Output()), CondCode(syms, cond))
      ensures Output().Some? ==> cond.Op? && nzp == NzpForOp(cond.op)
      decreases cond, 2
    {
      hide Sites, LowerAll, NzpForOp;
      nzp := NZP_ALL;
      if !cond.Op? {
        hadError := true;
        return;
      }
      var regs := EvalArgs(cond.args);
      if |regs| != 2 {
        hadError := true;
        return;
      }
      EmitInstr(Cmp(regs[0], regs[1]));
      nzp := NzpForOp(cond.op);
      EmitInstr(Brnzp(nzp, 0));
      ghost var code := CodeOfAll(LowerAll(syms, cond.args, TMP_BASE));
      ExtendCat(old(Output()), code, Some([Cmp(regs[0], regs[1])]));
      ExtendCat(old(Output()), Cat(code, Some([Cmp(regs[0], regs[1])])), Some([Brnzp(nzp, 0)]));
    }

    /** The skip over the second arm, and the landing pad in front of it. */
    method EmitSkip()
      requires Valid()
      modifies buf, buf.instructions
      ensures Valid() && Output() == Extend(Extend(old(Output()), Some([Brnzp(NZP_ALL, 0)])), Some([Nop]))
    {
      hide Extend, Sites;
      EmitInstr(Brnzp(NZP_ALL, 0));
      EmitInstr(Nop);
    }

    /** Both branches are placeholders until the lengths of the two bodies are known.
        After an error nothing that was emitted is used any more. */
    method EmitIf(s: Stmt)
      requires Valid() && nextTmp == TMP_BASE && s.If?
      modifies this`hadError, this`nextTmp, this`callSites, buf, buf.instructions
      ensures Valid() && Output() == Extend(old(Output()), LowerStmt(syms, s))
      decreases s, 0
    {
      hide Sites, LowerBlock, LowerStmt, NzpForOp, CondCode, Extend;
      var nzp := EmitCond(s.cond);
      ghost var a1 := Output();
      var elseStart: int := buf.count;
      EmitList(s.els);
      ghost var a2 := Output();
      var lenElse := buf.count - elseStart;
      var skipIdx: int := buf.count;
      EmitSkip();
      ghost var a4 := Output();
      var thenStart: int := buf.count;
      EmitList(s.thn);
      ghost var a5 := Output();
      var lenThen := buf.count - thenStart;
      EmitInstr(Sync);
      IfPatched(syms, s, old(Output()), a1, a2, a4, a5, Output());
      if !hadError && !buf.overflow {
        PatchBranches(elseStart - 1, nzp, 2 + lenElse, skipIdx, 2 + lenThen);
      }
    }

    /** The bound of a loop and the comparison with its variable. */
    method EmitTest(varReg: int, bound: Expr) returns (boundReg: int)
      requires Valid()
      modifies this`hadError, this`nextTmp, this`callSites, buf, buf.instructions
      ensures Valid()
      ensures var g := LowerExpr(syms, bound, TMP_BASE);
              Output() == Extend(Extend(old(Output()), CodeOf(g)), Some([Cmp(varReg, boundReg)]))
              && (Extend(old(Output()), CodeOf(g)).Some? ==> boundReg == g.reg)
    {
      hide Sites, LowerExpr, Extend;
      nextTmp := TMP_BASE;
      boundReg := EvalExpr(bound);
      EmitInstr(Cmp(varReg, boundReg));
    }

    method EmitFor(s: Stmt)
      requires Valid() && nextTmp == TMP_BASE && s.For?
      modifies this`hadError, this`nextTmp, this`callSites, buf, buf.instructions
      ensures Valid() && Output() == Extend(old(Output()), LowerStmt(syms, s))
      decreases s, 0
    {
      hide Sites, LowerExpr, LowerBlock, LowerSet, LowerStmt, Extend, CodeOf;
      var varReg := Lookup(syms, s.v);
      EmitSet(s.v, s.init);
      EmitInstr(Const(TMP_ONE, 1));
      ghost var a1 := Output();
      var pcTop: int := buf.count;
      var boundReg := EmitTest(varReg, s.bound);
      ghost var a2 := Output();
      var brnzpExit: int := buf.count;
      EmitInstr(Brnzp(NZP_ZP, 0));
      EmitList(s.body);
      EmitInstr(Alu(OP_ADD, varReg, varReg, TMP_ONE, 0));
      ghost var a3 := Output();
      var brnzpBack: int := buf.count;
      EmitInstr(Brnzp(NZP_ALL, 0));
      var pcEnd: int := buf.count;
      LoopPatched(syms, s, old(Output()), a1, boundReg, a2, a3, Output());
      if !hadError && !buf.overflow {
        PatchBranch(brnzpExit, NZP_ZP, pcEnd - brnzpExit);
        PatchBranch(brnzpBack, NZP_ALL, pcTop - brnzpBack);
      }
    }

    /** Statements are emitted until one of them fails. */
    method EmitList(list: Block)
      requires Valid()
      modifies this`hadError, this`nextTmp, this`callSites, buf, buf.instructions
      ensures Valid() && Output() == Extend(old(Output()), LowerBlock(syms, list))
      decreases list, 0
    {
      hide Sites, LowerStmt, Extend, Cat;
      var n := list;
      ghost var done: Option<seq<Instr>> := Some([]);
      CatNothing(LowerBlock(syms, list));
      ExtendNothing(Output());
      while n.Seq? && !hadError
        invariant Valid() && (n == list || n < list)
        invariant Output() == Extend(old(Output()), done) && LowerBlock(syms, list) == Cat(done, LowerBlock(syms, n))
        decreases n
      {
        ghost var c := LowerStmt(syms, n.head);
        BlockCat(syms, n);
        CatAssoc(done, c, LowerBlock(syms, n.tail));
        ExtendCat(old(Output()), done, c);
        EmitStmt(n.head);
        n := n.tail;
        done := Cat(done, c);
      }
      ExtendStop(old(Output()), done, LowerBlock(syms, n));
      CatNothing(done);
    }

    /** Each parameter is loaded from its word of the parameter block. */
    method EmitParams(params: seq<string>)
      requires Valid()
      modifies buf, buf.instructions
      ensures Valid() && Output() == Extend(old(Output()), Some(LoadParams(syms, params, 0)))
    {
      hide Sites, Extend;
      ghost var done: seq<Instr> := [];
      ExtendNothing(Output());
      for i := 0 to |params|
        invariant Valid() && Output() == Extend(old(Output()), Some(done))
        invariant LoadParams(syms, params, 0) == done + LoadParams(syms, params, i)
      {
        var reg := Lookup(syms, params[i]);
        var load := Ldr(reg, 0, PARAM_BASE + i);
        EmitInstr(load);
        ExtendCat(old(Output()), Some(done), Some([load]));
        assert done + ([load] + LoadParams(syms, params, i + 1)) == (done + [load]) + LoadParams(syms, params, i + 1);
        done := done + [load];
      }
      assert done + [] == done;
    }

    /** The kernel gets a RET unless the opcode of its last word already is one. */
    method EmitKernelEnd()
      requires Valid()
      requires Output().Some? && Output().value != [] ==> Known(Output().value[|Output().value| - 1])
      modifies buf, buf.instructions
      ensures Valid() && Output() == Closed(old(Output()))
    {
      hide Sites;
      if !hadError && !buf.overflow {
        if buf.count > 0 {
          OpcodeOfRet(buf.code[buf.count - 1]);
        }
        if buf.count == 0 || buf.instructions[buf.count - 1] / 0x400_0000 != OP_RET {
          EmitInstr(Ret);
        }
      }
    }

    /** The bodies of the funcs, each with its own table; their start positions. */
    method EmitFuncs(tabs: seq<seq<Binding>>, fs: seq<Func>) returns (starts: seq<nat>)
      requires Valid() && |tabs| == |fs| && (Output().Some? ==> |Output().value| <= MAX_INSTRUCTIONS)
      modifies this`syms, this`hadError, this`nextTmp, this`callSites, buf, buf.instructions
      ensures Valid()
      ensures old(Output()).None? ==> Output().None?
      ensures old(Output()).Some? ==>
                var before := old(Output()).value;
                var r := LowerFuncs(tabs, fs, |before|);
                Output() == Extend(Some(before), FuncsCode(r)) && (Output().Some? ==> r.Some? && starts == r.value.1)
    {
      hide Sites, LowerBlock;
      starts := [];
      ghost var done: seq<Instr> := [];
      ExtendNothing(Output());
      FuncsNothing(tabs, fs, if Output().Some? then |Output().value| else 0);
      var fi := 0;
      while fi < |fs| && !hadError
        invariant Valid() && 0 <= fi <= |fs| && (old(Output()).None? ==> Output().None?)
        invariant Output().Some? ==>
                    && Output() == Extend(old(Output()), Some(done))
                    && LowerFuncs(tabs, fs, |old(Output()).value|)
                       == FuncsBehind(done, starts, LowerFuncs(tabs[fi..], fs[fi..], |old(Output()).value| + |done|))
        invariant Output().None? && old(Output()).Some? ==>
                    Extend(old(Output()), FuncsCode(LowerFuncs(tabs, fs, |old(Output()).value|))).None?
      {
        starts := starts + [buf.count];
        syms := tabs[fi];
        nextTmp := TMP_BASE;
        ghost var c := LowerBlock(syms, fs[fi].body);
        if Output().Some? {
          FuncsOne(done, starts[..|starts| - 1], tabs[fi..], fs[fi..], |old(Output()).value| + |done|);
          ExtendCat(old(Output()), Some(done), c);
        }
        assert tabs[fi..][1..] == tabs[fi + 1..] && fs[fi..][1..] == fs[fi + 1..];
        EmitList(fs[fi].body);
        fi := fi + 1;
        if c.Some? {
          done := done + c.value;
        }
      }
      assert done + [] == done && starts + [] == starts;
    }

    /** Every call is pointed at the start of its func, in the order the calls were emitted;
        a call of an unknown func is an error. */
    method PatchCalls(fs: seq<Func>, starts: seq<nat>)
      requires Valid() && Output().Some? && |starts| == |fs|
      modifies this`hadError, buf`code, buf.instructions
      ensures buf.Valid()
      ensures Output() == if AllKnown(fs, callSites, |callSites|) then Some(Link(fs, starts, old(buf.code), 0)) else None
    {
      hide Sites, FindFunc, SiteAt;
      ghost var code := buf.code;
      SitesFacts(code);
      NoSites(callSites);
      for ci := 0 to |callSites|
        invariant buf.Valid() && !buf.overflow && |buf.code| == |code| && (hadError <==> !AllKnown(fs, callSites, ci))
        invariant !hadError ==> forall k :: 0 <= k < |code| ==>
                    buf.code[k] == if SiteAt(callSites, ci, k) then LinkInstr(fs, starts, code[k], k) else code[k]
      {
        var site := callSites[ci];
        var fi := IndexOfFunc(fs, site.1);
        if fi == |fs| {
          hadError := true;
        } else {
          var start: int := starts[fi];
          buf.Patch(site.0, Isa.Call(start - site.0));
        }
        forall k | 0 <= k < |code|
          ensures SiteAt(callSites, ci + 1, k) <==> SiteAt(callSites, ci, k) || site.0 == k
        {
          SiteAtOne(callSites, ci, k);
        }
      }
      assert !hadError ==> buf.code == Link(fs, starts, code, 0);
    }

    /** The conditional branch of an `if` and its skip. */
    method PatchBranches(first: nat, nzp: int, off: int, skip: nat, skipOff: int)
      requires Valid() && !buf.overflow && first < skip < |buf.code| && buf.code[first].Brnzp? && buf.code[skip].Brnzp?
      modifies buf`code, buf.instructions
      ensures Valid() && buf.code == old(buf.code)[first := Brnzp(nzp, off)][skip := Brnzp(NZP_ALL, skipOff)]
    {
      PatchBranch(first, nzp, off);
      PatchBranch(skip, NZP_ALL, skipOff);
    }

    method PatchBranch(idx: nat, nzp: int, off: int)
      requires Valid() && !buf.overflow && idx < |buf.code| && buf.code[idx].Brnzp?
      modifies buf`code, buf.instructions
      ensures Valid() && buf.code == old(buf.code)[idx := Brnzp(nzp, off)]
    {
      hide Sites;
      SitesPatch(buf.code, idx, Brnzp(nzp, off));
      buf.Patch(idx, Brnzp(nzp, off));
    }
  }

  lemma ExtendNothing(done: Option<seq<Instr>>)
    requires done.Some? ==> |done.value| <= MAX_INSTRUCTIONS
    ensures Extend(done, Some([])) == done
  {
    if done.Some? {
      assert done.value + [] == done.value;
    }
  }

  /** Once there is a failure, what would have followed makes no difference. */
  lemma ExtendStop(done: Option<seq<Instr>>, a: Option<seq<Instr>>, b: Option<seq<Instr>>)
    ensures Extend(done, a).None? ==> Extend(done, Cat(a, b)).None?
  {
  }

  /** An instruction whose opcode field can be read back from its word. */
  predicate Known(i: Instr) {
    Encodable(i) || i.CallTo? || (i.Brnzp? && 0 <= i.nzp < 8)
  }

  lemma OpcodeOfRet(i: Instr)
    requires Known(i)
    ensures Encode(i) / 0x400_0000 == OP_RET <==> i.Ret?
  {
    match i
    case Alu(op, rd, rs1, rs2, rs3) => FieldsOfR(op, rd, rs1, rs2, rs3);
    case Cmp(rs1, rs2) => FieldsOfR(OP_CMP, 0, rs1, rs2, 0);
    case Ldr(rd, base, imm) => FieldsOfI(OP_LDR, rd, base, imm);
    case Str(src, base, imm) => FieldsOfI(OP_STR, src, base, imm);
    case Const(rd, imm) => FieldsOfI(OP_CONST, rd, 0, imm);
    case Brnzp(nzp, off) => FieldsOfB(OP_BRNZP, nzp, off);
    case Call(off) => FieldsOfB(OP_CALL, NZP_ALL, off);
    case CallTo(_) => FieldsOfB(OP_CALL, NZP_ALL, 0);
    case _ =>
  }

  function Closed(code: Option<seq<Instr>>): Option<seq<Instr>> {
    if code.None? || |CloseKernel(code.value)| > MAX_INSTRUCTIONS then None else Some(CloseKernel(code.value))
  }

  function FuncsCode(r: Option<(seq<Instr>, seq<nat>)>): Option<seq<Instr>> {
    if r.None? then None else Some(r.value.0)
  }

  function FuncsBehind(done: seq<Instr>, starts: seq<nat>, rest: Option<(seq<Instr>, seq<nat>)>): Option<(seq<Instr>, seq<nat>)> {
    if rest.None? then None else Some((done + rest.value.0, starts + rest.value.1))
  }

  lemma FuncsNothing(tabs: seq<seq<Binding>>, fs: seq<Func>, at: nat)
    requires |tabs| == |fs|
    ensures FuncsBehind([], [], LowerFuncs(tabs, fs, at)) == LowerFuncs(tabs, fs, at)
  {
    var r := LowerFuncs(tabs, fs, at);
    if r.Some? {
      assert [] + r.value.0 == r.value.0 && [] + r.value.1 == r.value.1;
    }
  }

  lemma FuncsOne(done: seq<Instr>, starts: seq<nat>, tabs: seq<seq<Binding>>, fs: seq<Func>, at: nat)
    requires |tabs| == |fs| && fs != []
    ensures var c := LowerBlock(tabs[0], fs[0].body);
            FuncsBehind(done, starts, LowerFuncs(tabs, fs, at))
            == if c.None? then None
               else FuncsBehind(done + c.value, starts + [at], LowerFuncs(tabs[1..], fs[1..], at + |c.value|))
  {
    hide LowerBlock;
    var c := LowerBlock(tabs[0], fs[0].body);
    if c.Some? {
      var r := LowerFuncs(tabs[1..], fs[1..], at + |c.value|);
      if r.Some? {
        assert done + (c.value + r.value.0) == (done + c.value) + r.value.0;
        assert starts + ([at] + r.value.1) == (starts + [at]) + r.value.1;
      }
    }
  }

  predicate AllKnown(fs: seq<Func>, sites: seq<(nat, string)>, n: nat)
    requires n <= |sites|
  {
    forall j :: 0 <= j < n ==> FindFunc(fs, sites[j].1) < |fs|
  }

  /** One of the first `n` sites is at position `k`. */
  predicate SiteAt(sites: seq<(nat, string)>, n: nat, k: nat)
    requires n <= |sites|
  {
    exists j :: 0 <= j < n && sites[j].0 == k
  }

  lemma NoSites(sites: seq<(nat, string)>)
    ensures forall k: nat :: !SiteAt(sites, 0, k)
  {
  }

  lemma SiteAtOne(sites: seq<(nat, string)>, n: nat, k: nat)
    requires n < |sites|
    ensures SiteAt(sites, n + 1, k) <==> SiteAt(sites, n, k) || sites[n].0 == k
  {
    if sites[n].0 == k {
      assert SiteAt(sites, n + 1, k);
    } else if SiteAt(sites, n, k) {
      var j :| 0 <= j < n && sites[j].0 == k;
      assert 0 <= j < n + 1;
    }
  }

  /** The recorded sites are exactly the positions of the calls. */
  lemma {:induction false} SitesFacts(code: seq<Instr>)
    ensures forall j :: 0 <= j < |Sites(code)| ==> Sites(code)[j].0 < |code| && code[Sites(code)[j].0] == CallTo(Sites(code)[j].1)
    ensures forall k :: 0 <= k < |code| && code[k].CallTo? ==> SiteAt(Sites(code), |Sites(code)|, k)
    decreases |code|
  {
    if code != [] {
      var n := |code| - 1;
      var old', now := Sites(code[..n]), Sites(code);
      SitesFacts(code[..n]);
      forall k | 0 <= k < |code| && code[k].CallTo?
        ensures SiteAt(now, |now|, k)
      {
        if k < n {
          assert code[..n][k] == code[k];
          var j :| 0 <= j < |old'| && old'[j].0 == k;
          assert now[j].0 == k;
        } else {
          assert now[|now| - 1].0 == k;
        }
      }
    }
  }

  lemma BlockCat(tab: seq<Binding>, b: Block)
    requires b.Seq?
    ensures LowerBlock(tab, b) == Cat(LowerStmt(tab, b.head), LowerBlock(tab, b.tail))
  {
    hide LowerStmt;
  }

  lemma MovsOne(dst: int, src: seq<int>, i: nat)
    requires i < |src|
    ensures Some(Movs(dst, src[..i + 1])) == Cat(Some(Movs(dst, src[..i])), Some(Mov(dst + i, src[i])))
  {
    hide Mov;
    assert src[..i + 1][..i] == src[..i];
  }

  lemma AluKind(op: Operator, rd: int, r: seq<int>)
    requires |r| == Arity(op)
    ensures !AluInstr(op, rd, r).CallTo?
  {
  }

  /** The test of an `if` up to its branch. */
  function CondCode(tab: seq<Binding>, cond: Expr): Option<seq<Instr>> {
    if !cond.Op? then None
    else
      match LowerAll(tab, cond.args, TMP_BASE)
      case BadAll => None
      case GoodAll(code, regs, _) =>
        if |regs| != 2 then None else Some(code + [Cmp(regs[0], regs[1])] + [Brnzp(NzpForOp(cond.op), 0)])
  }

  /** The two patched placeholders make the code of an `if`. */
  lemma IfPatched(tab: seq<Binding>, s: Stmt, a: Option<seq<Instr>>, a1: Option<seq<Instr>>, a2: Option<seq<Instr>>,
                  a4: Option<seq<Instr>>, a5: Option<seq<Instr>>, a6: Option<seq<Instr>>)
    requires s.If? && a1 == Extend(a, CondCode(tab, s.cond)) && a2 == Extend(a1, LowerBlock(tab, s.els))
    requires a4 == Extend(Extend(a2, Some([Brnzp(NZP_ALL, 0)])), Some([Nop]))
    requires a5 == Extend(a4, LowerBlock(tab, s.thn)) && a6 == Extend(a5, Some([Sync]))
    ensures a6.None? ==> Extend(a, LowerStmt(tab, s)).None?
    ensures a6.Some? ==>
              && a1.Some? && a2.Some? && a4.Some? && a5.Some? && s.cond.Op?
              && 0 < |a1.value| <= |a2.value| < |a4.value| <= |a5.value| < |a6.value|
              && a6.value[|a1.value| - 1].Brnzp? && a6.value[|a2.value|].Brnzp?
              && Extend(a, LowerStmt(tab, s))
                 == Some(a6.value[|a1.value| - 1 := Brnzp(NzpForOp(s.cond.op), 2 + |a2.value| - |a1.value|)]
                                 [|a2.value| := Brnzp(NZP_ALL, 2 + |a5.value| - |a4.value|)])
  {
    hide LowerBlock, LowerAll, NzpForOp, IfCode;
    var cond, els, thn := CondCode(tab, s.cond), LowerBlock(tab, s.els), LowerBlock(tab, s.thn);
    if a.Some? && cond.Some? && els.Some? && thn.Some? {
      var g := LowerAll(tab, s.cond.args, TMP_BASE);
      IfWords(a.value, g.code, s.cond.op, g.regs[0], g.regs[1], els.value, thn.value);
      if a6.Some? {
        assert a6.value == a.value + g.code + [Cmp(g.regs[0], g.regs[1])] + [Brnzp(NzpForOp(s.cond.op), 0)] + els.value
                           + [Brnzp(NZP_ALL, 0)] + [Nop] + thn.value + [Sync];
      }
    }
  }

  lemma IfWords(before: seq<Instr>, test: seq<Instr>, op: Operator, l: int, r: int, els: seq<Instr>, thn: seq<Instr>)
    ensures var at := |before| + |test|;
            var code := before + test + [Cmp(l, r)] + [Brnzp(NzpForOp(op), 0)] + els + [Brnzp(NZP_ALL, 0)] + [Nop] + thn + [Sync];
            |code| == |before| + |IfCode(test, op, l, r, els, thn)| && code[at + 1].Brnzp? && code[at + 2 + |els|].Brnzp?
            && code[at + 1 := Brnzp(NzpForOp(op), 2 + |els|)][at + 2 + |els| := Brnzp(NZP_ALL, 2 + |thn|)]
               == before + IfCode(test, op, l, r, els, thn)
  {
    hide NzpForOp;
  }

  lemma LoopWords(before: seq<Instr>, test: seq<Instr>, v: int, b: int, body: seq<Instr>)
    ensures var exit := |before| + |test| + 1;
            var back := exit + |body| + 2;
            var code := before + test + [Cmp(v, b)] + [Brnzp(NZP_ZP, 0)] + body + [Alu(OP_ADD, v, v, TMP_ONE, 0)] + [Brnzp(NZP_ALL, 0)];
            |code| == |before| + |LoopCode(test, v, b, body)| && code[exit].Brnzp? && code[back].Brnzp?
            && code[exit := Brnzp(NZP_ZP, |body| + 3)][back := Brnzp(NZP_ALL, |before| - back)]
               == before + LoopCode(test, v, b, body)
  {
  }

  /** The two patched placeholders make the code of a loop. */
  lemma LoopPatched(tab: seq<Binding>, s: Stmt, a: Option<seq<Instr>>, a1: Option<seq<Instr>>, reg: int,
                    a2: Option<seq<Instr>>, a3: Option<seq<Instr>>, a4: Option<seq<Instr>>)
    requires s.For? && a1 == Extend(Extend(a, LowerSet(tab, s.v, s.init)), Some([Const(TMP_ONE, 1)]))
    requires var g, v := LowerExpr(tab, s.bound, TMP_BASE), Lookup(tab, s.v);
             && a2 == Extend(Extend(a1, CodeOf(g)), Some([Cmp(v, reg)])) && (Extend(a1, CodeOf(g)).Some? ==> reg == g.reg)
             && a3 == Extend(Extend(Extend(a2, Some([Brnzp(NZP_ZP, 0)])), LowerBlock(tab, s.body)), Some([Alu(OP_ADD, v, v, TMP_ONE, 0)]))
             && a4 == Extend(a3, Some([Brnzp(NZP_ALL, 0)]))
    ensures a4.None? ==> Extend(a, LowerStmt(tab, s)).None?
    ensures a4.Some? ==>
              && a1.Some? && a2.Some? && a3.Some? && |a1.value| <= |a2.value| < |a3.value| < |a4.value|
              && a4.value[|a2.value|].Brnzp? && a4.value[|a3.value|].Brnzp?
              && Extend(a, LowerStmt(tab, s))
                 == Some(a4.value[|a2.value| := Brnzp(NZP_ZP, |a4.value| - |a2.value|)]
                                 [|a3.value| := Brnzp(NZP_ALL, |a1.value| - |a3.value|)])
  {
    hide LowerBlock, LowerExpr, LowerSet, LoopCode;
    var init, g, body := LowerSet(tab, s.v, s.init), LowerExpr(tab, s.bound, TMP_BASE), LowerBlock(tab, s.body);
    if init.Some? && g.Good? && body.Some? && a.Some? {
      var v, before := Lookup(tab, s.v), a.value + init.value + [Const(TMP_ONE, 1)];
      LoopWords(before, g.code, v, g.reg, body.value);
      assert a.value + LowerStmt(tab, s).value == before + LoopCode(g.code, v, g.reg, body.value);
      if a4.Some? {
        assert a4.value == before + g.code + [Cmp(v, g.reg)] + [Brnzp(NZP_ZP, 0)] + body.value
                           + [Alu(OP_ADD, v, v, TMP_ONE, 0)] + [Brnzp(NZP_ALL, 0)];
      }
    }
  }

  /** In an accepted program every call that is emitted names a declared func. */
  lemma CallsKnown(p: Program, code: seq<Instr>)
    requires Within(p.funcs, true, code, 0, |code|)
    ensures AllKnown(p.funcs, Sites(code), |Sites(code)|)
  {
    hide Sites, FindFunc, SiteAt;
    SitesFacts(code);
    forall j | 0 <= j < |Sites(code)|
      ensures FindFunc(p.funcs, Sites(code)[j].1) < |p.funcs|
    {
      assert Plain(p.funcs, true, code[Sites(code)[j].0]);
    }
  }

  /** The words of an accepted program, or an error exactly where the compiler is specified to give up. */
  method Generate(p: Program, ktabs: seq<seq<Binding>>, ftabs: seq<seq<Binding>>) returns (err: bool, words: seq<int>)
    requires Check(p) == Some((ktabs, ftabs))
    ensures err <==> Compile(p).None?
    ensures !err ==> Compile(p) == Some(words)
  {
    hide Check, LowerBlock, LowerFuncs, LoadParams, Sites, AllKnown, Link;
    err, words := true, [];
    if p.kernels == [] {
      return;
    }
    var buf := new InstrBuf();
    var g := new CGen(buf, ktabs[0]);
    g.EmitParams(p.kernels[0].params);
    g.EmitList(p.kernels[0].body);
    ghost var body := g.Output();
    KernelEmitted(p, body);
    g.EmitKernelEnd();
    var starts := g.EmitFuncs(ftabs, p.funcs);
    ghost var all := g.Output();
    ProgramEmitted(p, body, all, starts);
    if !g.hadError && !buf.overflow {
      g.PatchCalls(p.funcs, starts);
    }
    if !g.hadError && !buf.overflow {
      err, words := false, buf.instructions[..buf.count];
      assert words == EncodeAll(buf.code);
    }
  }

  /** The compiler: check, then generate. It gives up exactly where `Compile` does, and its words are those of `Compile`. */
  method CompileProgram(p: Program) returns (err: bool, words: seq<int>)
    ensures err <==> Compile(p).None?
    ensures !err ==> Compile(p) == Some(words)
  {
    hide Check;
    var bad, ktabs, ftabs := Checker.SemaCheck(p);
    if bad {
      return true, [];
    }
    err, words := Generate(p, ktabs, ftabs);
  }

  /** What has been emitted before the kernel is closed: the loads and the body, in order. */
  ghost predicate KernelBody(p: Program, body: Option<seq<Instr>>) {
    p.kernels != [] && Check(p).Some?
    && var k, tab := p.kernels[0], Check(p).value.0[0];
       body == Extend(Extend(Some([]), Some(LoadParams(tab, k.params, 0))), LowerBlock(tab, k.body))
  }

  lemma KernelEmitted(p: Program, body: Option<seq<Instr>>)
    requires KernelBody(p, body)
    ensures body.Some? && body.value != [] ==> Known(body.value[|body.value| - 1])
    ensures body.Some? ==> LowerKernel(Check(p).value.0[0], p.kernels[0]) == Some(CloseKernel(body.value))
    ensures body.None? ==> match LowerKernel(Check(p).value.0[0], p.kernels[0])
                           case None => true
                           case Some(code) => |code| > MAX_INSTRUCTIONS
  {
    hide Check, LowerBlock, LoadParams, Within, CloseKernel, Encodable;
    var k, tab := p.kernels[0], Check(p).value.0[0];
    var b := LowerBlock(tab, k.body);
    var loads := LoadParams(tab, k.params, 0);
    if b.Some? {
      assert [] + loads == loads;
      CloseSize(loads + b.value);
      KernelRegion(p);
      CloseLast(p.funcs, loads + b.value);
    }
  }

  lemma CloseSize(code: seq<Instr>)
    ensures |code| <= |CloseKernel(code)|
  {
  }

  lemma CloseLast(fs: seq<Func>, code: seq<Instr>)
    requires Region(fs, true, CloseKernel(code))
    ensures code != [] ==> Known(code[|code| - 1])
  {
    hide Encodable;
    if code != [] {
      assert CloseKernel(code)[|code| - 1] == code[|code| - 1];
    }
  }

  lemma ProgramEmitted(p: Program, body: Option<seq<Instr>>, all: Option<seq<Instr>>, starts: seq<nat>)
    requires KernelBody(p, body)
    requires Closed(body).None? ==> all.None?
    requires Closed(body).Some? ==>
               var r := LowerFuncs(Check(p).value.1, p.funcs, |Closed(body).value|);
               all == Extend(Closed(body), FuncsCode(r)) && (all.Some? ==> r.Some? && starts == r.value.1)
    ensures all.None? ==> Compile(p).None?
    ensures all.Some? ==>
              && LowerProgram(Check(p).value.0[0], Check(p).value.1, p) == Some((all.value, starts))
              && Compile(p) == Some(EncodeAll(Link(p.funcs, starts, all.value, 0)))
              && |starts| == |p.funcs| && AllKnown(p.funcs, Sites(all.value), |Sites(all.value)|)
  {
    hide Check, LowerBlock, LowerFuncs, LowerKernel, CloseKernel, Sites, AllKnown, Within, LoadParams, Link, EncodeAll;
    KernelEmitted(p, body);
    if all.Some? {
      var ids := Ids(0, 0, 0);
      CompiledWorld(p, ids);
      CodeWithin(p, WorldOf(p, ids), KernelTable(p), Compile(p).value);
      CallsKnown(p, all.value);
    }
  }
}
