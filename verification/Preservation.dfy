/** The simulation proof: lowered code, run by the lane, reaches what the interpreter reaches,
    and runs on for as long as the interpreter does. */
module Preservation {
  import opened Words
  import opened Isa
  import opened Lang
  import opened Sema
  import opened Lowering
  import opened Temporaries
  import opened Layout
  import opened Operators
  import opened Simulation
  import opened Confinement

  // ----- what running a piece of code achieves -----

  predicate Placed(w: World, tab: seq<Binding>, e: Expr, t: int, pc: int) {
    TMP_BASE <= t <= TMP_ONE && LowerExpr(tab, e, t).Good? && CodeAt(w, pc, LowerExpr(tab, e, t).code)
  }

  predicate PlacedAll(w: World, tab: seq<Binding>, es: seq<Expr>, t: int, pc: int) {
    TMP_BASE <= t <= TMP_ONE && LowerAll(tab, es, t).GoodAll? && CodeAt(w, pc, LowerAll(tab, es, t).code)
  }

  /** The lane after the code of an expression that has a value. */
  ghost predicate ValueIn(w: World, depth: nat, e: Expr, t: int, g: Lowered, s: Lane, s': Lane, v: Int32, m: Memory) {
    g.Good? && s'.pc == s.pc + |g.code| && s'.mem == m && Read(w.ids, s', g.reg) == U32(v)
    && Advanced(w, depth, CallsOf(w.fs, e), t, s, s')
  }

  ghost predicate ValuesIn(w: World, depth: nat, es: seq<Expr>, t: int, g: LoweredAll, s: Lane, s': Lane, vs: seq<Int32>, m: Memory) {
    g.GoodAll? && s'.pc == s.pc + |g.code| && s'.mem == m && |g.regs| == |vs| == |es|
    && (forall i :: 0 <= i < |vs| ==> Read(w.ids, s', g.regs[i]) == U32(vs[i]))
    && Advanced(w, depth, CallsOfAll(w.fs, es), t, s, s')
  }

  ghost predicate ExprRan(w: World, depth: nat, tab: seq<Binding>, e: Expr, t: int, env: Env, fuel: nat, s: Lane, n: nat, s': Lane) {
    && Runs(w, s, n, s')
    && match Eval(depth, w.fs, w.ids, e, env, s.mem, fuel)
       case Val(v, m) => ValueIn(w, depth, e, t, LowerExpr(tab, e, t), s, s', v, m)
       case OutOfFuel => n >= fuel && !s'.halted
       case NoValue => true
  }

  ghost predicate AllRan(w: World, depth: nat, tab: seq<Binding>, es: seq<Expr>, t: int, env: Env, fuel: nat, s: Lane, n: nat, s': Lane) {
    && Runs(w, s, n, s')
    && match EvalAll(depth, w.fs, w.ids, es, env, s.mem, fuel)
       case Vals(vs, m) => ValuesIn(w, depth, es, t, LowerAll(tab, es, t), s, s', vs, m)
       case NoFuel => n >= fuel && !s'.halted
       case NoValues => true
  }

  /** `s` is reached from `s0` in `n` steps, between two statements of the same body. */
  ghost predicate At(w: World, depth: nat, tab: seq<Binding>, env: Env, s0: Lane, n: nat, s: Lane) {
    Runs(w, s0, n, s) && Carried(w, depth, s0, s) && s.stack == s0.stack && Context(w, depth, tab, env, s)
  }

  /** The lane after a statement or a block, `end` being the position behind its code. */
  ghost predicate Ends(w: World, depth: nat, tab: seq<Binding>, s: Lane, n: nat, s': Lane, end: int, out: Outcome, fuel: nat) {
    && Runs(w, s, n, s')
    && match out
       case Normal(env, m) => s'.pc == end && s'.mem == m && At(w, depth, tab, env, s, n, s')
       case Exit(env, m) => s'.halted && s'.mem == m && |s'.regs| == 32 && Agrees(w, tab, env, s')
       case Result(v, m) => n >= 1 && s'.mem == m && (if depth == 0 then Returned(w, s, s', v) else Start(s'))
       case Timeout => n >= fuel && !s'.halted
       case Stuck => true
  }

  /** A lane about to run the kernel. */
  predicate Start(s: Lane) {
    s.pc == 0 && s.stack == [] && !s.halted && |s.regs| == 32
  }

  /** Control is back at the caller with `v` in the result register. */
  ghost predicate Returned(w: World, s: Lane, s': Lane, v: Int32) {
    |s.stack| == 1 && s'.pc == s.stack[0] && s'.stack == [] && !s'.halted
    && Carried(w, 0, s, s') && Read(w.ids, s', FUNC_REG_RET) == U32(v)
  }

  // ----- expressions -----

  predicate IsLeaf(e: Expr) {
    e.Lit? || Steady(e) || Folds(e)
  }

  lemma SimConst(w: World, depth: nat, t: int, v: Word, s: Lane) returns (s': Lane)
    requires CodeAt(w, s.pc, [Const(t, v)]) && Live(depth, s) && TMP_BASE <= t < TMP_ONE
    ensures Runs(w, s, 1, s')
    ensures s'.pc == s.pc + 1 && s'.mem == s.mem && Read(w.ids, s', t) == v && Advanced(w, depth, None, t, s, s')
  {
    hide CodeAt, Advanced, Read;
    s' := StepConst(w, s, t, v);
    AdvanceWrite(w, depth, t, s, v);
  }

  /** An expression without a call whose value a single CONST loads. */
  lemma SimLoadedConst(w: World, depth: nat, tab: seq<Binding>, e: Expr, t: int, env: Env, s: Lane, fuel: nat, v: Int32, imm: int)
    returns (s': Lane)
    requires Live(depth, s) && Placed(w, tab, e, t, s.pc) && CallsOf(w.fs, e).None? && 0 <= imm <= 0xFFFF
    requires LowerExpr(tab, e, t) == Good([Const(t, imm)], t, t + 1) && t < TMP_ONE
    requires var r := Eval(depth, w.fs, w.ids, e, env, s.mem, fuel); r == NoValue || (r == Val(v, s.mem) && imm == U32(v))
    ensures ExprRan(w, depth, tab, e, t, env, fuel, s, 1, s')
  {
    hide Advanced, Read, CodeAt, LowerExpr, CallsOf, Eval, Live;
    s' := SimConst(w, depth, t, imm, s);
  }

  lemma LiteralFacts(e: Expr)
    requires e.Lit? && LitsFit(e)
    ensures 0 <= e.v <= 0xFFFF && e.v % 0x1_0000 == e.v == U32(e.v)
  {
  }

  lemma FoldFacts(depth: nat, fs: seq<Func>, ids: Ids, e: Expr, env: Env, mem: Memory, fuel: nat)
    requires Folds(e)
    ensures 0 <= Fold(e).value <= 0xFFFF && Fold(e).value == U32(Fold(e).value) && CallsOf(fs, e).None?
    ensures var r := Eval(depth, fs, ids, e, env, mem, fuel); r == NoValue || r == Val(Fold(e).value, mem)
  {
    hide Eval, CallsOf, Fold;
    FoldSound(depth, fs, ids, e, env, mem, fuel);
    FoldHasNoCall(fs, e);
  }

  lemma SimLeaf(w: World, depth: nat, tab: seq<Binding>, e: Expr, t: int, env: Env, s: Lane, fuel: nat)
    returns (n: nat, s': Lane)
    requires Context(w, depth, tab, env, s) && Placed(w, tab, e, t, s.pc) && Fine(w.fs, e, t) && IsLeaf(e)
    ensures ExprRan(w, depth, tab, e, t, env, fuel, s, n, s')
  {
    hide WorldOk, Scoped, Advanced, CodeAt, ExprRan, Fold, Live, LitsFit, Read;
    n := 1;
    match e
    case Lit(v) =>
      LiteralFacts(e);
      s' := SimLoadedConst(w, depth, tab, e, t, env, s, fuel, v, v);
    case Op(_, _) =>
      FoldFacts(depth, w.fs, w.ids, e, env, s.mem, fuel);
      s' := SimLoadedConst(w, depth, tab, e, t, env, s, fuel, Fold(e).value, Fold(e).value);
    case _ =>
      n, s' := 0, s;
      SimHeld(w, depth, tab, e, t, env, s, fuel);
  }

  /** A variable or an id is read where it is. */
  lemma SimHeld(w: World, depth: nat, tab: seq<Binding>, e: Expr, t: int, env: Env, s: Lane, fuel: nat)
    requires Context(w, depth, tab, env, s) && Placed(w, tab, e, t, s.pc) && Steady(e)
    ensures ExprRan(w, depth, tab, e, t, env, fuel, s, 0, s)
  {
    hide WorldOk, Scoped, Advanced, CodeAt, Live;
    AdvanceNone(w, depth, t, s);
  }

  lemma SimExpr(w: World, depth: nat, tab: seq<Binding>, e: Expr, t: int, env: Env, s: Lane, fuel: nat)
    returns (n: nat, s': Lane)
    requires Context(w, depth, tab, env, s) && Placed(w, tab, e, t, s.pc) && Fine(w.fs, e, t)
    ensures ExprRan(w, depth, tab, e, t, env, fuel, s, n, s')
    decreases depth, fuel, e, 2
  {
    hide WorldOk, Agrees, Placed, Fine, ValueIn, Folds, FindFunc;
    if IsLeaf(e) {
      n, s' := SimLeaf(w, depth, tab, e, t, env, s, fuel);
    } else if e.Op? {
      n, s' := SimOp(w, depth, tab, e, t, env, s, fuel);
    } else if e.MemLoad? {
      n, s' := SimLoad(w, depth, tab, e, t, env, s, fuel);
    } else if depth > 0 && FindFunc(w.fs, e.name) < |w.fs| {
      n, s' := SimCall(w, depth, tab, e, t, env, s, fuel);
    } else {
      n, s' := 0, s;
    }
  }

  lemma SimOp(w: World, depth: nat, tab: seq<Binding>, e: Expr, t: int, env: Env, s: Lane, fuel: nat)
    returns (n: nat, s': Lane)
    requires Context(w, depth, tab, env, s) && Placed(w, tab, e, t, s.pc) && Fine(w.fs, e, t) && e.Op? && !IsLeaf(e)
    ensures ExprRan(w, depth, tab, e, t, env, fuel, s, n, s')
    decreases depth, fuel, e, 0
  {
    hide Context, Advanced, Read, Write, Next, CodeAt, Folds, Apply, AluInstr;
    var g := LowerAll(tab, e.args, t);
    CodeSplit(w, s.pc, g.code, [AluInstr(e.op, t, g.regs)]);
    n, s' := SimAll(w, depth, tab, e.args, t, env, s, fuel);
    var r := EvalAll(depth, w.fs, w.ids, e.args, env, s.mem, fuel);
    if r.Vals? && |r.vs| == Arity(e.op) && Apply(e.op, r.vs).Some? {
      Settle(w, depth, tab, env, CallsOf(w.fs, e), t, s, s');
      var v := Apply(e.op, r.vs).value;
      var s2 := StepAlu(w, s', e.op, t, g.regs, r.vs);
      AdvanceWrite(w, depth, t, s', U32(v));
      AdvanceTrans(w, depth, CallsOf(w.fs, e), t, s, s', None, t, s2);
      Join(w, s, n, s', 1, s2);
      n, s' := n + 1, s2;
    }
  }

  /** Where the pieces of a load lie. */
  lemma LoadPlaced(w: World, tab: seq<Binding>, e: Expr, t: int, pc: int)
    requires e.MemLoad? && Placed(w, tab, e, t, pc) && Fine(w.fs, e, t)
    ensures Placed(w, tab, e.addr, t, pc) && Fine(w.fs, e.addr, t) && CallsOf(w.fs, e) == CallsOf(w.fs, e.addr)
    ensures var g := LowerExpr(tab, e.addr, t);
            && TMP_BASE <= t <= g.next < TMP_ONE && CodeAt(w, pc + |g.code|, [Ldr(g.next, g.reg, 0)])
            && LowerExpr(tab, e, t) == Good(g.code + [Ldr(g.next, g.reg, 0)], g.next, g.next + 1)
  {
    hide CodeAt, Lookup, Folds;
    var g := LowerExpr(tab, e.addr, t);
    LowerShape(tab, e.addr, t);
    CodeSplit(w, pc, g.code, [Ldr(g.next, g.reg, 0)]);
  }

  lemma SimLoad(w: World, depth: nat, tab: seq<Binding>, e: Expr, t: int, env: Env, s: Lane, fuel: nat)
    returns (n: nat, s': Lane)
    requires Context(w, depth, tab, env, s) && Placed(w, tab, e, t, s.pc) && Fine(w.fs, e, t) && e.MemLoad?
    ensures ExprRan(w, depth, tab, e, t, env, fuel, s, n, s')
    decreases depth, fuel, e, 0
  {
    hide Context, Advanced, Read, Write, Next, CodeAt, Load, Placed, LowerExpr, Fine, CallsOf;
    LoadPlaced(w, tab, e, t, s.pc);
    var g := LowerExpr(tab, e.addr, t);
    n, s' := SimExpr(w, depth, tab, e.addr, t, env, s, fuel);
    var r := Eval(depth, w.fs, w.ids, e.addr, env, s.mem, fuel);
    if r.Val? {
      Settle(w, depth, tab, env, CallsOf(w.fs, e), t, s, s');
      var word := Load(r.mem, U32(r.v));
      U32Of(word);
      var s2 := StepLoad(w, s', g.next, g.reg);
      AdvanceWrite(w, depth, g.next, s', word);
      AdvanceTrans(w, depth, CallsOf(w.fs, e), t, s, s', None, g.next, s2);
      Join(w, s, n, s', 1, s2);
      n, s' := n + 1, s2;
    }
  }

  lemma SimAll(w: World, depth: nat, tab: seq<Binding>, es: seq<Expr>, t: int, env: Env, s: Lane, fuel: nat)
    returns (n: nat, s': Lane)
    requires Context(w, depth, tab, env, s) && PlacedAll(w, tab, es, t, s.pc) && FineAll(w.fs, es, t)
    ensures AllRan(w, depth, tab, es, t, env, fuel, s, n, s')
    decreases depth, fuel, es, 0
  {
    hide WorldOk, Scoped, Agrees, Advanced, Read, CodeAt, Folds;
    n, s' := 0, s;
    if es == [] {
      AdvanceNone(w, depth, t, s);
    } else {
      var g := LowerExpr(tab, es[0], t);
      LowerShape(tab, es[0], t);
      CodeSplit(w, s.pc, g.code, LowerAll(tab, es[1..], g.next).code);
      n, s' := SimExpr(w, depth, tab, es[0], t, env, s, fuel);
      var r := Eval(depth, w.fs, w.ids, es[0], env, s.mem, fuel);
      if r.Val? {
        Settle(w, depth, tab, env, CallsOf(w.fs, es[0]), t, s, s');
        var n2, s2 := SimAll(w, depth, tab, es[1..], g.next, env, s', fuel);
        Join(w, s, n, s', n2, s2);
        if EvalAll(depth, w.fs, w.ids, es[1..], env, r.mem, fuel).Vals? {
          ConsRan(w, depth, tab, es, t, env, fuel, s, s', s2);
        }
        n, s' := n + n2, s2;
      }
    }
  }

  /** Values of a head and of its tail are values of the whole list. */
  lemma ConsRan(w: World, depth: nat, tab: seq<Binding>, es: seq<Expr>, t: int, env: Env, fuel: nat, s: Lane, s1: Lane, s2: Lane)
    requires Scoped(w, depth, tab) && es != [] && SafeAll(w.fs, es, t) && PlacedAll(w, tab, es, t, s.pc)
    requires Eval(depth, w.fs, w.ids, es[0], env, s.mem, fuel).Val?
    requires var r, g := Eval(depth, w.fs, w.ids, es[0], env, s.mem, fuel), LowerExpr(tab, es[0], t);
             && ValueIn(w, depth, es[0], t, g, s, s1, r.v, r.mem)
             && var q := EvalAll(depth, w.fs, w.ids, es[1..], env, r.mem, fuel);
                q.Vals? && ValuesIn(w, depth, es[1..], g.next, LowerAll(tab, es[1..], g.next), s1, s2, q.vs, q.mem)
    ensures var q := EvalAll(depth, w.fs, w.ids, es, env, s.mem, fuel);
            q.Vals? && ValuesIn(w, depth, es, t, LowerAll(tab, es, t), s, s2, q.vs, q.mem)
  {
    hide Scoped, Advanced, Read, CodeAt, Folds;
    var r, g := Eval(depth, w.fs, w.ids, es[0], env, s.mem, fuel), LowerExpr(tab, es[0], t);
    var q, h := EvalAll(depth, w.fs, w.ids, es[1..], env, r.mem, fuel), LowerAll(tab, es[1..], g.next);
    LowerShape(tab, es[0], t);
    HeadKept(w, depth, tab, es, t, s1, s2);
    AdvanceTrans(w, depth, CallsOf(w.fs, es[0]), t, s, s1, CallsOfAll(w.fs, es[1..]), g.next, s2);
    ConsRead(w, s2, g.reg, h.regs, r.v, q.vs);
  }

  lemma ConsRead(w: World, s: Lane, reg: int, regs: seq<int>, v: Int32, vs: seq<Int32>)
    requires |regs| == |vs| && Read(w.ids, s, reg) == U32(v)
    requires forall i :: 0 <= i < |vs| ==> Read(w.ids, s, regs[i]) == U32(vs[i])
    ensures forall i :: 0 <= i < |[v] + vs| ==> Read(w.ids, s, ([reg] + regs)[i]) == U32(([v] + vs)[i])
  {
  }

  // ----- calls -----

  /** What a call site may touch on its way in or out: the func window and the temporaries from `t` on. */
  ghost predicate Between(w: World, t: int, s: Lane, s': Lane) {
    (Flag(s.nzp) ==> Flag(s'.nzp)) && |s'.regs| == 32
    && Read(w.ids, s', TMP_ONE) == Read(w.ids, s, TMP_ONE)
    && forall r :: 0 <= r < FUNC_REG_BASE || TMP_BASE <= r < t ==> Read(w.ids, s', r) == Read(w.ids, s, r)
  }

  /** The call instruction itself: it enters the func with its return address on the stack. */
  lemma StepCall(w: World, f: string, s: Lane) returns (s': Lane)
    requires |w.fs| == |w.starts| && Live(1, s) && FindFunc(w.fs, f) < |w.fs| && CodeAt(w, s.pc, [CallTo(f)])
    ensures Runs(w, s, 1, s')
    ensures s' == s.(pc := w.starts[FindFunc(w.fs, f)], stack := [s.pc + 1])
  {
    s' := One(w, s, CallTo(f));
  }

  lemma PushMovs(w: World, regs: seq<int>, vs: seq<Int32>, s: Lane) returns (n: nat, s': Lane)
    requires Live(1, s) && CodeAt(w, s.pc, Movs(FUNC_REG_BASE, regs)) && |regs| == |vs| <= FUNC_MAX_VARS
    requires forall i :: 0 <= i < |vs| ==> Read(w.ids, s, regs[i]) == U32(vs[i])
    requires forall i :: 0 <= i < |regs| ==> 0 <= regs[i] < 32 && !(FUNC_REG_BASE <= regs[i] < FUNC_REG_BASE + FUNC_MAX_VARS)
    ensures Runs(w, s, n, s')
    ensures s'.pc == s.pc + |Movs(FUNC_REG_BASE, regs)| && s'.mem == s.mem && Live(1, s') && Between(w, TMP_ONE, s, s')
    ensures forall i :: 0 <= i < |vs| ==> Read(w.ids, s', FUNC_REG_BASE + i) == U32(vs[i])
  {
    hide CodeAt, Movs, Read;
    n, s' := StepMovs(w, s, regs);
  }

  lemma FuncFacts(w: World, k: nat)
    requires WorldOk(w) && k < |w.fs|
    ensures |w.fs| == |w.tabs| == |w.starts| && Scoped(w, 0, w.tabs[k]) && |w.fs[k].params| <= FUNC_MAX_VARS
    ensures forall i :: 0 <= i < |w.fs[k].params| ==> Lookup(w.tabs[k], w.fs[k].params[i]) == FUNC_REG_BASE + i
    ensures FineBlock(w.fs, w.tabs[k], w.fs[k].body) && PlacedBlock(w, w.tabs[k], w.fs[k].body, w.starts[k])
  {
    assert FuncOk(w, k);
  }

  /** From the evaluated arguments into the callee: its parameters hold the arguments. */
  lemma EnterCall(w: World, f: string, regs: seq<int>, vs: seq<Int32>, s: Lane) returns (n: nat, s': Lane)
    requires WorldOk(w) && Live(1, s) && FindFunc(w.fs, f) < |w.fs|
    requires CodeAt(w, s.pc, Movs(FUNC_REG_BASE, regs)) && CodeAt(w, s.pc + |Movs(FUNC_REG_BASE, regs)|, [CallTo(f)])
    requires |regs| == |vs| == |w.fs[FindFunc(w.fs, f)].params|
    requires forall i :: 0 <= i < |vs| ==> Read(w.ids, s, regs[i]) == U32(vs[i])
    requires forall i :: 0 <= i < |regs| ==> 0 <= regs[i] < 32 && !(FUNC_REG_BASE <= regs[i] < FUNC_REG_BASE + FUNC_MAX_VARS)
    ensures Runs(w, s, n, s')
    ensures var k := FindFunc(w.fs, f);
            s'.pc == w.starts[k] && Context(w, 0, w.tabs[k], Bind(w.fs[k].params, vs), s')
    ensures s'.stack == [s.pc + |Movs(FUNC_REG_BASE, regs)| + 1] && s'.mem == s.mem && Between(w, TMP_ONE, s, s')
  {
    hide WorldOk, CodeAt, Agrees, Scoped, Movs, Bind, FineBlock, LowerBlock, PlacedBlock, Lookup, Runs;
    var k := FindFunc(w.fs, f);
    FuncFacts(w, k);
    var n1, s1 := PushMovs(w, regs, vs, s);
    s' := StepCall(w, f, s1);
    n := n1 + 1;
    Join(w, s, n1, s1, 1, s');
    assert forall r :: 0 <= r < 32 ==> Read(w.ids, s', r) == Read(w.ids, s1, r);
    BindAgrees(w, w.tabs[k], w.fs[k].params, vs, FUNC_REG_BASE, s');
  }

  /** Back from the callee, the result moves into the caller's temporary. */
  lemma LeaveCall(w: World, t: int, s: Lane, v: Int32) returns (n: nat, s': Lane)
    requires TMP_BASE <= t < TMP_ONE && CodeAt(w, s.pc, Mov(t, FUNC_REG_RET)) && |s.regs| == 32 && !s.halted
    requires Read(w.ids, s, FUNC_REG_RET) == U32(v)
    ensures Runs(w, s, n, s')
    ensures s'.pc == s.pc + |Mov(t, FUNC_REG_RET)| && s'.mem == s.mem && s'.stack == s.stack && !s'.halted
    ensures Read(w.ids, s', t) == U32(v) && Between(w, t, s, s')
  {
    n, s' := StepMov(w, s, t, FUNC_REG_RET);
  }

  /** What a callee leaves alone: the temporaries behind those it uses. */
  ghost predicate Spared(w: World, need: nat, s: Lane, s': Lane) {
    forall r :: TMP_BASE + need <= r < TMP_ONE ==> Read(w.ids, s', r) == Read(w.ids, s, r)
  }

  lemma CallFrame(w: World, c: Calls, need: nat, t: int, s: Lane, s1: Lane, s2: Lane, s3: Lane, s4: Lane)
    requires w.fs != [] && TMP_BASE <= t <= TMP_ONE && Live(1, s)
    requires Advanced(w, 1, c, t, s, s1) && Between(w, TMP_ONE, s1, s2) && Carried(w, 0, s2, s3) && Spared(w, need, s2, s3) && Between(w, t, s3, s4)
    requires s4.stack == s.stack && !s4.halted
    ensures Advanced(w, 1, Either(c, Some(need)), t, s, s4)
  {
    forall r | 0 <= r < 32 && Kept(w, 1, Either(c, Some(need)), t, r)
      ensures Read(w.ids, s4, r) == Read(w.ids, s, r)
    {
      assert Kept(w, 1, c, t, r);
      if r < TMP_ONE {
        assert Read(w.ids, s4, r) == Read(w.ids, s3, r) == Read(w.ids, s2, r) == Read(w.ids, s1, r);
      }
    }
  }

  /** A run through the k-th func, from its first instruction until it is left. */
  lemma CalleeSpares(w: World, k: nat, s: Lane, n: nat, s': Lane)
    requires WorldOk(w) && k < |w.fs| && s.pc == w.starts[k] && |s.stack| == 1 && |s.regs| == 32 && Runs(w, s, n, s')
    ensures Spared(w, BlockNeed(w.fs[k].body), s, s')
  {
    hide BlockNeed, LowerBlock, Region, CodeAt, FineBlock, Scoped;
    assert FuncOk(w, k);
    var code := LowerBlock(w.tabs[k], w.fs[k].body).value;
    forall r | TMP_BASE + BlockNeed(w.fs[k].body) <= r < TMP_ONE
      ensures Read(w.ids, s', r) == Read(w.ids, s, r)
    {
      RegionNonEmpty(w, false, code, w.starts[k]);
      RunConfined(w, code, w.starts[k], s, n, r);
    }
  }

  /** Argument registers lie outside the func window. */
  lemma {:induction false} ArgRegs(w: World, depth: nat, tab: seq<Binding>, es: seq<Expr>, t: int)
    requires Scoped(w, depth, tab) && depth > 0 && w.fs != [] && TMP_BASE <= t <= TMP_ONE && LowerAll(tab, es, t).GoodAll?
    ensures var g := LowerAll(tab, es, t);
            forall i :: 0 <= i < |g.regs| ==> 0 <= g.regs[i] < 32 && !(FUNC_REG_BASE <= g.regs[i] < FUNC_REG_BASE + FUNC_MAX_VARS)
    decreases |es|
  {
    if es != [] {
      LowerShape(tab, es[0], t);
      ArgRegs(w, depth, tab, es[1..], LowerExpr(tab, es[0], t).next);
    }
  }

  /** Where the pieces of a call lie. */
  lemma CallPlaced(w: World, tab: seq<Binding>, e: Expr, t: int, pc: int)
    requires e.CallF? && Placed(w, tab, e, t, pc)
    ensures TMP_BASE <= t < TMP_ONE && PlacedAll(w, tab, e.args, t, pc) && LowerExpr(tab, e, t).Good?
    ensures var g := LowerAll(tab, e.args, t);
            var movs, mov := Movs(FUNC_REG_BASE, g.regs), Mov(t, FUNC_REG_RET);
            var at := pc + |g.code| + |movs|;
            && |g.regs| == |e.args|
            && LowerExpr(tab, e, t).reg == t && |LowerExpr(tab, e, t).code| == |g.code| + |movs| + 1 + |mov|
            && CodeAt(w, pc + |g.code|, movs) && CodeAt(w, at, [CallTo(e.name)]) && CodeAt(w, at + 1, mov)
  {
    hide CodeAt, Movs, Mov, Lookup, Folds;
    var g := LowerAll(tab, e.args, t);
    LowerAllShape(tab, e.args, t);
    var movs, mov := Movs(FUNC_REG_BASE, g.regs), Mov(t, FUNC_REG_RET);
    CodeSplit(w, pc, g.code + movs + [CallTo(e.name)], mov);
    CodeSplit(w, pc, g.code + movs, [CallTo(e.name)]);
    CodeSplit(w, pc, g.code, movs);
  }

  lemma SimCall(w: World, depth: nat, tab: seq<Binding>, e: Expr, t: int, env: Env, s: Lane, fuel: nat)
    returns (n: nat, s': Lane)
    requires Context(w, depth, tab, env, s) && Placed(w, tab, e, t, s.pc) && Fine(w.fs, e, t)
    requires e.CallF? && depth == 1 && FindFunc(w.fs, e.name) < |w.fs|
    ensures ExprRan(w, depth, tab, e, t, env, fuel, s, n, s')
    decreases depth, fuel, e, 1
  {
    hide WorldOk, Scoped, Agrees, Advanced, Read, Placed, PlacedAll, CodeAt, Movs, Mov, LowerExpr, LowerAll, SafeAll, LitsFitAll, RunBlock;
    CallPlaced(w, tab, e, t, s.pc);
    n, s' := SimAll(w, depth, tab, e.args, t, env, s, fuel);
    var r := EvalAll(depth, w.fs, w.ids, e.args, env, s.mem, fuel);
    if r.Vals? && |r.vs| == |w.fs[FindFunc(w.fs, e.name)].params| {
      var n2, s2 := SimInvoke(w, tab, e, t, env, s, s', r.vs, fuel);
      Join(w, s, n, s', n2, s2);
      n, s' := n + n2, s2;
    }
  }

  /** The first half of a call: from behind its arguments to the callee's first instruction. */
  lemma BeginCall(w: World, tab: seq<Binding>, e: Expr, t: int, env: Env, s0: Lane, s: Lane, vs: seq<Int32>)
    returns (n: nat, s': Lane)
    requires Context(w, 1, tab, env, s0) && Placed(w, tab, e, t, s0.pc) && e.CallF?
    requires FindFunc(w.fs, e.name) < |w.fs| && |vs| == |w.fs[FindFunc(w.fs, e.name)].params|
    requires ValuesIn(w, 1, e.args, t, LowerAll(tab, e.args, t), s0, s, vs, s.mem)
    ensures Runs(w, s, n, s') && Between(w, TMP_ONE, s, s') && s'.mem == s.mem
    ensures var k := FindFunc(w.fs, e.name);
            && |w.fs| == |w.tabs| == |w.starts| && s'.pc == w.starts[k] && PlacedBlock(w, w.tabs[k], w.fs[k].body, s'.pc) && FineBlock(w.fs, w.tabs[k], w.fs[k].body)
            && Context(w, 0, w.tabs[k], Bind(w.fs[k].params, vs), s')
    ensures s.stack == [] && s'.stack == [s0.pc + |LowerExpr(tab, e, t).code| - |Mov(t, FUNC_REG_RET)|] && |s'.regs| == 32 && WorldOk(w)
  {
    hide WorldOk, Scoped, Agrees, Advanced, Read, Placed, PlacedAll, PlacedBlock, CodeAt, Movs, Mov, LowerExpr, LowerAll, FineBlock, Bind, Between, Lookup, Runs;
    CallPlaced(w, tab, e, t, s0.pc);
    FuncFacts(w, FindFunc(w.fs, e.name));
    ArgRegs(w, 1, tab, e.args, t);
    Settle(w, 1, tab, env, CallsOfAll(w.fs, e.args), t, s0, s);
    n, s' := EnterCall(w, e.name, LowerAll(tab, e.args, t).regs, vs, s);
  }

  /** The second half: from the return address to behind the call. */
  lemma EndCall(w: World, tab: seq<Binding>, e: Expr, t: int, env: Env, s0: Lane, s: Lane, s1: Lane, s2: Lane, v: Int32)
    returns (n: nat, s': Lane)
    requires Context(w, 1, tab, env, s0) && Placed(w, tab, e, t, s0.pc) && e.CallF? && w.fs != []
    requires Advanced(w, 1, CallsOfAll(w.fs, e.args), t, s0, s) && Between(w, TMP_ONE, s, s1)
    requires Returned(w, s1, s2, v) && Spared(w, FuncNeed(w.fs, e.name), s1, s2)
    requires s1.stack == [s0.pc + |LowerExpr(tab, e, t).code| - |Mov(t, FUNC_REG_RET)|]
    ensures Runs(w, s2, n, s') && ValueIn(w, 1, e, t, LowerExpr(tab, e, t), s0, s', v, s2.mem)
  {
    hide WorldOk, Scoped, Agrees, Advanced, Read, Placed, PlacedAll, CodeAt, Movs, Mov, LowerExpr, LowerAll, Between, Runs;
    CallPlaced(w, tab, e, t, s0.pc);
    n, s' := LeaveCall(w, t, s2, v);
    CallFrame(w, CallsOfAll(w.fs, e.args), FuncNeed(w.fs, e.name), t, s0, s, s1, s2, s');
  }

  /** A call from behind the evaluation of its arguments on. */
  lemma SimInvoke(w: World, tab: seq<Binding>, e: Expr, t: int, env: Env, s0: Lane, s: Lane, vs: seq<Int32>, fuel: nat)
    returns (n: nat, s': Lane)
    requires Context(w, 1, tab, env, s0) && Placed(w, tab, e, t, s0.pc) && e.CallF?
    requires FindFunc(w.fs, e.name) < |w.fs| && |vs| == |w.fs[FindFunc(w.fs, e.name)].params|
    requires ValuesIn(w, 1, e.args, t, LowerAll(tab, e.args, t), s0, s, vs, s.mem)
    ensures Runs(w, s, n, s')
    ensures var f := w.fs[FindFunc(w.fs, e.name)];
            match RunBlock(0, w.fs, w.ids, f.body, Bind(f.params, vs), s.mem, fuel)
            case Result(v, m) => ValueIn(w, 1, e, t, LowerExpr(tab, e, t), s0, s', v, m)
            case Timeout => n >= fuel && !s'.halted
            case _ => true
    decreases 1, fuel, e, 0
  {
    hide Context, Advanced, Read, Placed, PlacedBlock, Mov, LowerExpr, LowerAll, RunBlock, LowerBlock, FineBlock, Bind, Carried, Between, Runs, Returned, ValueIn;
    var f := w.fs[FindFunc(w.fs, e.name)];
    var n1, s1 := BeginCall(w, tab, e, t, env, s0, s, vs);
    var env', tab' := Bind(f.params, vs), w.tabs[FindFunc(w.fs, e.name)];
    var n2, s2 := SimBlock(w, 0, tab', f.body, env', s1, fuel);
    Join(w, s, n1, s1, n2, s2);
    n, s' := n1 + n2, s2;
    var out := RunBlock(0, w.fs, w.ids, f.body, env', s.mem, fuel);
    if out.Result? {
      CalleeSpares(w, FindFunc(w.fs, e.name), s1, n2, s2);
      var n3, s3 := EndCall(w, tab, e, t, env, s0, s, s1, s2, out.v);
      Join(w, s, n, s2, n3, s3);
      n, s' := n + n3, s3;
    }
  }

  // ----- statements -----

  predicate PlacedBlock(w: World, tab: seq<Binding>, b: Block, pc: int) {
    LowerBlock(tab, b).Some? && CodeAt(w, pc, LowerBlock(tab, b).value)
  }

  predicate PlacedStmt(w: World, tab: seq<Binding>, st: Stmt, pc: int) {
    LowerStmt(tab, st).Some? && CodeAt(w, pc, LowerStmt(tab, st).value)
  }

  /** The position behind a statement that begins at `pc`. */
  function EndOf(tab: seq<Binding>, st: Stmt, pc: int): int {
    match LowerStmt(tab, st) case Some(code) => pc + |code| case None => pc
  }

  lemma CarriedTrans(w: World, depth: nat, s: Lane, s1: Lane, s2: Lane)
    requires Carried(w, depth, s, s1) && Carried(w, depth, s1, s2)
    ensures Carried(w, depth, s, s2)
  {
  }

  lemma AtStart(w: World, depth: nat, tab: seq<Binding>, env: Env, s: Lane)
    requires Context(w, depth, tab, env, s)
    ensures At(w, depth, tab, env, s, 0, s)
  {
  }

  lemma AtContext(w: World, depth: nat, tab: seq<Binding>, env: Env, s0: Lane, n: nat, s: Lane)
    requires At(w, depth, tab, env, s0, n, s)
    ensures Context(w, depth, tab, env, s) && |s.regs| == 32 && !s.halted && s.stack == s0.stack && (Flag(s0.nzp) ==> Flag(s.nzp))
    ensures Read(w.ids, s0, TMP_ONE) == 1 ==> Read(w.ids, s, TMP_ONE) == 1
  {
    hide WorldOk, Scoped, Agrees, Read, Runs;
  }

  /** A step that keeps what statements keep. */
  lemma AtNext(w: World, depth: nat, tab: seq<Binding>, env: Env, s0: Lane, n: nat, s: Lane, env': Env, m: nat, s': Lane)
    requires At(w, depth, tab, env, s0, n, s) && Runs(w, s, m, s') && Carried(w, depth, s, s') && s'.stack == s.stack
    requires Agrees(w, tab, env', s') && !s'.halted
    ensures At(w, depth, tab, env', s0, n + m, s')
  {
    hide WorldOk, Scoped, Agrees, Read, Runs, Carried;
    Join(w, s0, n, s, m, s');
    CarriedTrans(w, depth, s0, s, s');
  }

  /** The code of an expression, between statements. */
  lemma AtExpr(w: World, depth: nat, tab: seq<Binding>, env: Env, s0: Lane, n: nat, s: Lane, calls: Calls, t: int, m: nat, s': Lane)
    requires At(w, depth, tab, env, s0, n, s) && Runs(w, s, m, s')
    requires TMP_BASE <= t <= TMP_ONE && Advanced(w, depth, calls, t, s, s')
    ensures At(w, depth, tab, env, s0, n + m, s')
  {
    hide WorldOk, Scoped, Agrees, Read, Runs, Carried, Advanced;
    Settle(w, depth, tab, env, calls, t, s, s');
    Join(w, s0, n, s, m, s');
    CarriedTrans(w, depth, s0, s, s');
  }

  /** A piece of code that ends normally, followed by more. */
  lemma EndsAfter(w: World, depth: nat, tab: seq<Binding>, env: Env, s: Lane, n1: nat, s1: Lane, n2: nat, s2: Lane,
                  end: int, out: Outcome, fuel1: nat, fuel: nat)
    requires At(w, depth, tab, env, s, n1, s1) && n1 + fuel1 >= fuel
    requires Ends(w, depth, tab, s1, n2, s2, end, out, fuel1)
    ensures Ends(w, depth, tab, s, n1 + n2, s2, end, out, fuel)
  {
    hide Carried, Agrees, Read, Context, Runs;
    Join(w, s, n1, s1, n2, s2);
    if out.Normal? || (out.Result? && depth == 0) {
      CarriedTrans(w, depth, s, s1, s2);
    }
  }

  /** A statement whose expression has no value, or no end in sight. */
  lemma EndsNowhere(w: World, depth: nat, tab: seq<Binding>, s: Lane, n: nat, s': Lane, end: int, late: bool, fuel: nat)
    requires Runs(w, s, n, s') && (late ==> n >= fuel && !s'.halted)
    ensures Ends(w, depth, tab, s, n, s', end, if late then Timeout else Stuck, fuel)
  {
  }

  lemma SimBlock(w: World, depth: nat, tab: seq<Binding>, b: Block, env: Env, s: Lane, fuel: nat)
    returns (n: nat, s': Lane)
    requires Context(w, depth, tab, env, s) && PlacedBlock(w, tab, b, s.pc) && FineBlock(w.fs, tab, b)
    ensures Ends(w, depth, tab, s, n, s',
                 s.pc + (match LowerBlock(tab, b) case Some(code) => |code| case None => 0),
                 RunBlock(depth, w.fs, w.ids, b, env, s.mem, fuel), fuel)
    decreases depth, fuel, b, 0
  {
    hide Context, At, CodeAt, LowerStmt, RunStmt, FineStmt;
    n, s' := 0, s;
    if b.End? {
      AtStart(w, depth, tab, env, s);
    } else {
      var c, k := LowerStmt(tab, b.head).value, LowerBlock(tab, b.tail).value;
      CodeSplit(w, s.pc, c, k);
      n, s' := SimStmt(w, depth, tab, b.head, env, s, fuel);
      var r := RunStmt(depth, w.fs, w.ids, b.head, env, s.mem, fuel);
      if r.Normal? {
        AtContext(w, depth, tab, r.env, s, n, s');
        var n2, s2 := SimBlock(w, depth, tab, b.tail, r.env, s', fuel);
        var out := RunBlock(depth, w.fs, w.ids, b.tail, r.env, r.mem, fuel);
        EndsAfter(w, depth, tab, r.env, s, n, s', n2, s2, s.pc + |c| + |k|, out, fuel, fuel);
        n, s' := n + n2, s2;
      }
    }
  }

  lemma SimStmt(w: World, depth: nat, tab: seq<Binding>, st: Stmt, env: Env, s: Lane, fuel: nat)
    returns (n: nat, s': Lane)
    requires Context(w, depth, tab, env, s) && PlacedStmt(w, tab, st, s.pc) && FineStmt(w.fs, tab, st)
    ensures Ends(w, depth, tab, s, n, s', EndOf(tab, st, s.pc), RunStmt(depth, w.fs, w.ids, st, env, s.mem, fuel), fuel)
    decreases depth, fuel, st, 3
  {
    hide Context, CodeAt, Ends, LowerSet, IfCode, LoopCode, Fine, FineAll, Lookup;
    match st
    case Decl(x, e) => n, s' := SimSet(w, depth, tab, x, e, env, s, fuel);
    case Assign(x, e) => n, s' := SimSet(w, depth, tab, x, e, env, s, fuel);
    case Store(addr, val) => n, s' := SimStore(w, depth, tab, addr, val, env, s, fuel);
    case If(_, _, _) => n, s' := SimIf(w, depth, tab, st, env, s, fuel);
    case For(_, _, _, _) => n, s' := SimFor(w, depth, tab, st, env, s, fuel);
    case Return(None) => n, s' := SimExit(w, depth, tab, env, s, fuel);
    case Return(Some(e)) => n, s' := SimReturn(w, depth, tab, e, env, s, fuel);
  }

  lemma SimExit(w: World, depth: nat, tab: seq<Binding>, env: Env, s: Lane, fuel: nat) returns (n: nat, s': Lane)
    requires Context(w, depth, tab, env, s) && CodeAt(w, s.pc, [Ret])
    ensures Ends(w, depth, tab, s, n, s', s.pc + 1, Exit(env, s.mem), fuel)
  {
    n := 1;
    s' := One(w, s, Ret);
  }

  // ----- assignments, stores, returns -----

  /** The move that ends an assignment. */
  lemma FinishSet(w: World, depth: nat, tab: seq<Binding>, env: Env, x: string, v: Int32, src: int, s0: Lane, n: nat, s: Lane)
    returns (n': nat, s': Lane)
    requires At(w, depth, tab, env, s0, n, s) && Lookup(tab, x) > 0
    requires CodeAt(w, s.pc, Mov(Lookup(tab, x), src)) && Read(w.ids, s, src) == U32(v)
    ensures s'.pc == s.pc + |Mov(Lookup(tab, x), src)| && s'.mem == s.mem && At(w, depth, tab, env[x := v], s0, n', s')
  {
    hide WorldOk, CodeAt, Agrees, Read;
    var m, s1 := StepMov(w, s, Lookup(tab, x), src);
    AgreesSet(w, depth, tab, env, x, v, s, s1);
    AtNext(w, depth, tab, env, s0, n, s, env[x := v], m, s1);
    n', s' := n + m, s1;
  }

  lemma SimSet(w: World, depth: nat, tab: seq<Binding>, x: string, e: Expr, env: Env, s: Lane, fuel: nat)
    returns (n: nat, s': Lane)
    requires Context(w, depth, tab, env, s) && Lookup(tab, x) > 0 && Fine(w.fs, e, TMP_BASE)
    requires LowerSet(tab, x, e).Some? && CodeAt(w, s.pc, LowerSet(tab, x, e).value)
    ensures Ends(w, depth, tab, s, n, s', s.pc + |LowerSet(tab, x, e).value|,
                 SetVar(x, Eval(depth, w.fs, w.ids, e, env, s.mem, fuel), env), fuel)
    decreases depth, fuel, e, 3
  {
    hide Context, At, Advanced, Read, CodeAt, Mov, Lookup, LowerExpr, Eval, Fine, Runs;
    var g := LowerExpr(tab, e, TMP_BASE);
    CodeSplit(w, s.pc, g.code, Mov(Lookup(tab, x), g.reg));
    AtStart(w, depth, tab, env, s);
    n, s' := SimExpr(w, depth, tab, e, TMP_BASE, env, s, fuel);
    var r := Eval(depth, w.fs, w.ids, e, env, s.mem, fuel);
    if r.Val? {
      AtExpr(w, depth, tab, env, s, 0, s, CallsOf(w.fs, e), TMP_BASE, n, s');
      n, s' := FinishSet(w, depth, tab, env, x, r.v, g.reg, s, n, s');
      AtRuns(w, depth, tab, env[x := r.v], s, n, s');
    }
  }

  lemma AtRuns(w: World, depth: nat, tab: seq<Binding>, env: Env, s0: Lane, n: nat, s: Lane)
    requires At(w, depth, tab, env, s0, n, s)
    ensures Runs(w, s0, n, s)
  {
  }

  lemma FinishStore(w: World, depth: nat, tab: seq<Binding>, env: Env, src: int, base: int, s0: Lane, n: nat, s: Lane) returns (s': Lane)
    requires At(w, depth, tab, env, s0, n, s) && CodeAt(w, s.pc, [Str(src, base, 0)])
    ensures s'.pc == s.pc + 1 && s'.mem == s.mem[Read(w.ids, s, base) := Read(w.ids, s, src)]
    ensures At(w, depth, tab, env, s0, n + 1, s')
  {
    hide WorldOk, Scoped, CodeAt, Lookup;
    s' := StepStore(w, s, src, base);
    AtNext(w, depth, tab, env, s0, n, s, env, 1, s');
  }

  lemma PairFine(fs: seq<Func>, a: Expr, b: Expr)
    requires FineAll(fs, [a, b], TMP_BASE)
    ensures Fine(fs, a, TMP_BASE) && Fine(fs, b, TMP_BASE + Held(a)) && SafeAll(fs, [a, b], TMP_BASE)
    ensures [a, b][1..] == [b] && CallsOfAll(fs, [b]) == CallsOf(fs, b)
  {
    hide SafeExpr, LitsFit, CallsOf;
    var es := [a, b];
    var rest := es[1..];
    assert rest == [b] && rest[1..] == [] && SafeAll(fs, rest, TMP_BASE + Held(a)) && LitsFitAll(rest) && CallsOfAll(fs, rest[1..]) == None;
  }

  lemma StorePlaced(w: World, tab: seq<Binding>, addr: Expr, val: Expr, pc: int)
    requires PlacedStmt(w, tab, Store(addr, val), pc) && FineAll(w.fs, [val, addr], TMP_BASE)
    ensures Fine(w.fs, val, TMP_BASE) && SafeAll(w.fs, [val, addr], TMP_BASE) && Placed(w, tab, val, TMP_BASE, pc)
    ensures [val, addr][1..] == [addr] && CallsOfAll(w.fs, [addr]) == CallsOf(w.fs, addr)
    ensures var g := LowerExpr(tab, val, TMP_BASE);
            && TMP_BASE <= g.next <= TMP_ONE && Placed(w, tab, addr, g.next, pc + |g.code|) && Fine(w.fs, addr, g.next)
            && var h := LowerExpr(tab, addr, g.next);
               CodeAt(w, pc + |g.code| + |h.code|, [Str(g.reg, h.reg, 0)])
               && EndOf(tab, Store(addr, val), pc) == pc + |g.code| + |h.code| + 1
  {
    hide CodeAt, LowerExpr, LowerAll, FineAll, Fine, SafeAll, CallsOf, CallsOfAll;
    PairFine(w.fs, val, addr);
    PairLowering(tab, val, addr, TMP_BASE);
    LowerShape(tab, val, TMP_BASE);
    var g := LowerExpr(tab, val, TMP_BASE);
    var h := LowerExpr(tab, addr, g.next);
    CodeSplit(w, pc, g.code + h.code, [Str(g.reg, h.reg, 0)]);
    CodeSplit(w, pc, g.code, h.code);
  }

  lemma SimStore(w: World, depth: nat, tab: seq<Binding>, addr: Expr, val: Expr, env: Env, s: Lane, fuel: nat)
    returns (n: nat, s': Lane)
    requires Context(w, depth, tab, env, s) && PlacedStmt(w, tab, Store(addr, val), s.pc) && FineAll(w.fs, [val, addr], TMP_BASE)
    ensures Ends(w, depth, tab, s, n, s', EndOf(tab, Store(addr, val), s.pc),
                 RunStmt(depth, w.fs, w.ids, Store(addr, val), env, s.mem, fuel), fuel)
    decreases depth, fuel, Store(addr, val), 1
  {
    hide Context, At, Advanced, Read, PlacedStmt, Placed, CodeAt, LowerAll, LowerExpr, LowerStmt, EndOf, SafeAll, FineAll, Fine, CallsOf, CallsOfAll, Eval, Runs;
    StorePlaced(w, tab, addr, val, s.pc);
    AtStart(w, depth, tab, env, s);
    n, s' := SimExpr(w, depth, tab, val, TMP_BASE, env, s, fuel);
    var r := Eval(depth, w.fs, w.ids, val, env, s.mem, fuel);
    if r.Val? {
      AtExpr(w, depth, tab, env, s, 0, s, CallsOf(w.fs, val), TMP_BASE, n, s');
      n, s' := SimAddress(w, depth, tab, addr, val, env, s, n, s', r.v, fuel);
    }
  }

  /** The address and the store itself, the stored value being in its register; the statement begins at `s0`. */
  lemma SimAddress(w: World, depth: nat, tab: seq<Binding>, addr: Expr, val: Expr, env: Env, s0: Lane, n0: nat, s: Lane, v: Int32, fuel: nat)
    returns (n: nat, s': Lane)
    requires At(w, depth, tab, env, s0, n0, s) && PlacedStmt(w, tab, Store(addr, val), s0.pc) && FineAll(w.fs, [val, addr], TMP_BASE)
    requires var g := LowerExpr(tab, val, TMP_BASE); g.Good? && s.pc == s0.pc + |g.code| && Read(w.ids, s, g.reg) == U32(v)
    ensures Ends(w, depth, tab, s0, n, s', EndOf(tab, Store(addr, val), s0.pc),
                 match Eval(depth, w.fs, w.ids, addr, env, s.mem, fuel)
                 case Val(a, m) => Normal(env, m[U32(a) := U32(v)])
                 case NoValue => Stuck
                 case OutOfFuel => Timeout, fuel)
    decreases depth, fuel, Store(addr, val), 0
  {
    hide At, WorldOk, Agrees, Scoped, Advanced, Read, PlacedStmt, Placed, CodeAt, LowerAll, LowerExpr, LowerStmt, EndOf, SafeAll, FineAll, Fine, CallsOf, CallsOfAll, Eval, Runs;
    StorePlaced(w, tab, addr, val, s0.pc);
    AtContext(w, depth, tab, env, s0, n0, s);
    AtRuns(w, depth, tab, env, s0, n0, s);
    var g := LowerExpr(tab, val, TMP_BASE);
    var m, s1 := SimExpr(w, depth, tab, addr, g.next, env, s, fuel);
    Join(w, s0, n0, s, m, s1);
    n, s' := n0 + m, s1;
    if Eval(depth, w.fs, w.ids, addr, env, s.mem, fuel).Val? {
      HeadKept(w, depth, tab, [val, addr], TMP_BASE, s, s1);
      AtExpr(w, depth, tab, env, s0, n0, s, CallsOf(w.fs, addr), g.next, m, s1);
      s' := FinishStore(w, depth, tab, env, g.reg, LowerExpr(tab, addr, g.next).reg, s0, n, s1);
      n := n + 1;
      AtRuns(w, depth, tab, env, s0, n, s');
    }
  }

  /** The move and the SRET that end a func; in a kernel there is no caller, and SRET goes back to word 0. */
  lemma FinishReturn(w: World, depth: nat, tab: seq<Binding>, env: Env, src: int, v: Int32, s0: Lane, n: nat, s: Lane) returns (n': nat, s': Lane)
    requires At(w, depth, tab, env, s0, n, s) && Read(w.ids, s, src) == U32(v)
    requires CodeAt(w, s.pc, Mov(FUNC_REG_RET, src)) && CodeAt(w, s.pc + |Mov(FUNC_REG_RET, src)|, [Sret])
    ensures Runs(w, s0, n', s')
    ensures n' >= 1 && s'.mem == s.mem && if depth == 0 then Returned(w, s0, s', v) else Start(s')
  {
    hide WorldOk, Scoped, Agrees, CodeAt;
    var m, s1 := StepMov(w, s, FUNC_REG_RET, src);
    s' := One(w, s1, Sret);
    Join(w, s0, n, s, m, s1);
    Join(w, s0, n + m, s1, 1, s');
    n' := n + m + 1;
    assert forall r :: 0 <= r < 32 ==> Read(w.ids, s', r) == Read(w.ids, s1, r);
  }

  lemma SimReturn(w: World, depth: nat, tab: seq<Binding>, e: Expr, env: Env, s: Lane, fuel: nat)
    returns (n: nat, s': Lane)
    requires Context(w, depth, tab, env, s) && PlacedStmt(w, tab, Return(Some(e)), s.pc) && Fine(w.fs, e, TMP_BASE)
    ensures Ends(w, depth, tab, s, n, s', EndOf(tab, Return(Some(e)), s.pc),
                 RunStmt(depth, w.fs, w.ids, Return(Some(e)), env, s.mem, fuel), fuel)
    decreases depth, fuel, e, 3
  {
    hide Context, At, Advanced, Returned, Read, CodeAt, Mov, LowerExpr, Eval, Fine, EndOf, Runs;
    var g := LowerExpr(tab, e, TMP_BASE);
    CodeSplit(w, s.pc, g.code + Mov(FUNC_REG_RET, g.reg), [Sret]);
    CodeSplit(w, s.pc, g.code, Mov(FUNC_REG_RET, g.reg));
    AtStart(w, depth, tab, env, s);
    n, s' := SimExpr(w, depth, tab, e, TMP_BASE, env, s, fuel);
    var r := Eval(depth, w.fs, w.ids, e, env, s.mem, fuel);
    if r.Val? {
      AtExpr(w, depth, tab, env, s, 0, s, CallsOf(w.fs, e), TMP_BASE, n, s');
      n, s' := FinishReturn(w, depth, tab, env, g.reg, r.v, s, n, s');
    }
  }

  // ----- branches -----

  /** A comparison and its branch. */
  lemma CompareAndBranch(w: World, depth: nat, tab: seq<Binding>, env: Env, op: Operator, l: int, r: int, a: Int32, b: Int32, off: int,
                         s0: Lane, n: nat, s: Lane)
    returns (s': Lane)
    requires At(w, depth, tab, env, s0, n, s) && Read(w.ids, s, l) == U32(a) && Read(w.ids, s, r) == U32(b)
    requires CodeAt(w, s.pc, [Cmp(l, r)]) && CodeAt(w, s.pc + 1, [Brnzp(NzpForOp(op), off)])
    ensures s'.pc == s.pc + 1 + (if Compare(op, a, b) then off else 1) && s'.mem == s.mem
    ensures Flag(s'.nzp) && At(w, depth, tab, env, s0, n + 2, s')
  {
    hide WorldOk, Scoped, CodeAt, Lookup, NzpForOp, Compare;
    var s1 := StepCompare(w, s, l, r);
    CompareCorrect(op, a, b);
    s' := StepBranch(w, s1, NzpForOp(op), off);
    Join(w, s, 1, s1, 1, s');
    AtNext(w, depth, tab, env, s0, n, s, env, 2, s');
  }

  /** An always-branch or a NOP or SYNC, between statements. */
  lemma PassOver(w: World, depth: nat, tab: seq<Binding>, env: Env, i: Instr, s0: Lane, n: nat, s: Lane) returns (s': Lane)
    requires At(w, depth, tab, env, s0, n, s) && CodeAt(w, s.pc, [i])
    requires i.Nop? || i.Sync? || (i.Brnzp? && i.nzp == NZP_ALL && Flag(s.nzp))
    ensures s'.pc == s.pc + (if i.Brnzp? then i.off else 1) && s'.mem == s.mem
    ensures At(w, depth, tab, env, s0, n + 1, s') && (Flag(s.nzp) ==> Flag(s'.nzp))
  {
    hide WorldOk, Scoped, CodeAt, Lookup;
    s' := One(w, s, i);
    AtNext(w, depth, tab, env, s0, n, s, env, 1, s');
  }

  /** Where the pieces of an `if` lie. */
  lemma IfSplit(w: World, pc: int, test: seq<Instr>, op: Operator, l: int, r: int, els: seq<Instr>, thn: seq<Instr>)
    requires CodeAt(w, pc, IfCode(test, op, l, r, els, thn))
    ensures |IfCode(test, op, l, r, els, thn)| == |test| + |els| + |thn| + 5
    ensures CodeAt(w, pc, test)
    ensures CodeAt(w, pc + |test|, [Cmp(l, r)])
    ensures CodeAt(w, pc + |test| + 1, [Brnzp(NzpForOp(op), 2 + |els|)])
    ensures CodeAt(w, pc + |test| + 2, els)
    ensures CodeAt(w, pc + |test| + 2 + |els|, [Brnzp(NZP_ALL, 2 + |thn|)])
    ensures CodeAt(w, pc + |test| + 3 + |els|, [Nop])
    ensures CodeAt(w, pc + |test| + 4 + |els|, thn)
    ensures CodeAt(w, pc + |test| + 4 + |els| + |thn|, [Sync])
  {
    hide CodeAt, NzpForOp;
    var a, b := [Cmp(l, r), Brnzp(NzpForOp(op), 2 + |els|)], [Brnzp(NZP_ALL, 2 + |thn|), Nop];
    assert IfCode(test, op, l, r, els, thn) == test + a + els + b + thn + [Sync];
    CodeSplit(w, pc, test + a + els + b + thn, [Sync]);
    CodeSplit(w, pc, test + a + els + b, thn);
    CodeSplit(w, pc, test + a + els, b);
    CodeSplit(w, pc, test + a, els);
    CodeSplit(w, pc, test, a);
    assert a == [a[0]] + [a[1]] && b == [b[0]] + [b[1]];
    CodeSplit(w, pc + |test|, [a[0]], [a[1]]);
    CodeSplit(w, pc + |test| + 2 + |els|, [b[0]], [b[1]]);
  }

  function Size(tab: seq<Binding>, b: Block): nat {
    match LowerBlock(tab, b) case Some(code) => |code| case None => 0
  }

  lemma IfPlaced(w: World, tab: seq<Binding>, st: Stmt, pc: int)
    requires st.If? && PlacedStmt(w, tab, st, pc) && FineStmt(w.fs, tab, st)
    ensures st.cond.Op? && |st.cond.args| == 2 && FineAll(w.fs, st.cond.args, TMP_BASE) && PlacedAll(w, tab, st.cond.args, TMP_BASE, pc)
    ensures FineBlock(w.fs, tab, st.els) && FineBlock(w.fs, tab, st.thn)
    ensures var g, els, thn := LowerAll(tab, st.cond.args, TMP_BASE), Size(tab, st.els), Size(tab, st.thn);
            && g.GoodAll? && |g.regs| == 2
            && var at := pc + |g.code|;
            && EndOf(tab, st, pc) == at + els + thn + 5
            && CodeAt(w, at, [Cmp(g.regs[0], g.regs[1])])
            && CodeAt(w, at + 1, [Brnzp(NzpForOp(st.cond.op), 2 + els)])
            && PlacedBlock(w, tab, st.els, at + 2)
            && CodeAt(w, at + 2 + els, [Brnzp(NZP_ALL, 2 + thn)]) && CodeAt(w, at + 3 + els, [Nop])
            && PlacedBlock(w, tab, st.thn, at + 4 + els)
            && CodeAt(w, at + 4 + els + thn, [Sync])
  {
    hide CodeAt, NzpForOp, LowerAll, LowerBlock, FineAll, FineBlock, IfCode;
    var g := LowerAll(tab, st.cond.args, TMP_BASE);
    LowerAllShape(tab, st.cond.args, TMP_BASE);
    IfSplit(w, pc, g.code, st.cond.op, g.regs[0], g.regs[1], LowerBlock(tab, st.els).value, LowerBlock(tab, st.thn).value);
  }

  lemma SimIf(w: World, depth: nat, tab: seq<Binding>, st: Stmt, env: Env, s: Lane, fuel: nat)
    returns (n: nat, s': Lane)
    requires Context(w, depth, tab, env, s) && PlacedStmt(w, tab, st, s.pc) && FineStmt(w.fs, tab, st) && st.If?
    ensures Ends(w, depth, tab, s, n, s', EndOf(tab, st, s.pc), RunStmt(depth, w.fs, w.ids, st, env, s.mem, fuel), fuel)
    decreases depth, fuel, st, 1
  {
    hide Context, At, Advanced, Read, PlacedStmt, PlacedAll, PlacedBlock, CodeAt, Ends, LowerStmt, LowerAll, LowerBlock, EndOf, FineStmt, FineAll, FineBlock, RunBlock, EvalAll, Compare, Runs, NzpForOp;
    IfPlaced(w, tab, st, s.pc);
    var args, op := st.cond.args, st.cond.op;
    var g, end := LowerAll(tab, args, TMP_BASE), EndOf(tab, st, s.pc);
    AtStart(w, depth, tab, env, s);
    n, s' := SimAll(w, depth, tab, args, TMP_BASE, env, s, fuel);
    var r := EvalAll(depth, w.fs, w.ids, args, env, s.mem, fuel);
    if r.Vals? {
      AtExpr(w, depth, tab, env, s, 0, s, CallsOfAll(w.fs, args), TMP_BASE, n, s');
      var s1 := CompareAndBranch(w, depth, tab, env, op, g.regs[0], g.regs[1], r.vs[0], r.vs[1], 2 + Size(tab, st.els), s, n, s');
      n, s' := SimArm(w, depth, tab, st, Compare(op, r.vs[0], r.vs[1]), env, s, n + 2, s1, fuel);
    } else {
      EndsNowhere(w, depth, tab, s, n, s', end, r.NoFuel?, fuel);
    }
  }

  /** One arm of an `if`, from behind its branch to behind its last SYNC; the `if` starts at `s0`. */
  lemma SimArm(w: World, depth: nat, tab: seq<Binding>, st: Stmt, taken: bool, env: Env, s0: Lane, n0: nat, s: Lane, fuel: nat)
    returns (n: nat, s': Lane)
    requires At(w, depth, tab, env, s0, n0, s) && PlacedStmt(w, tab, st, s0.pc) && FineStmt(w.fs, tab, st) && st.If? && Flag(s.nzp)
    requires LowerAll(tab, st.cond.args, TMP_BASE).GoodAll?
    requires s.pc == s0.pc + |LowerAll(tab, st.cond.args, TMP_BASE).code| + 2 + (if taken then 1 + Size(tab, st.els) else 0)
    ensures Ends(w, depth, tab, s0, n, s', EndOf(tab, st, s0.pc),
                 RunBlock(depth, w.fs, w.ids, if taken then st.thn else st.els, env, s.mem, fuel), fuel)
    decreases depth, fuel, st, 0
  {
    hide Context, At, PlacedStmt, PlacedAll, PlacedBlock, CodeAt, Ends, LowerStmt, LowerAll, LowerBlock, EndOf, FineStmt, FineAll, FineBlock, RunBlock, NzpForOp, Size;
    IfPlaced(w, tab, st, s0.pc);
    var thn, els := Size(tab, st.thn), Size(tab, st.els);
    if taken {
      var s1 := PassOver(w, depth, tab, env, Nop, s0, n0, s);
      n, s' := SimInner(w, depth, tab, st.thn, [Sync], env, s0, n0 + 1, s1, EndOf(tab, st, s0.pc), fuel);
    } else {
      n, s' := SimInner(w, depth, tab, st.els, [Brnzp(NZP_ALL, 2 + thn), Sync], env, s0, n0, s, EndOf(tab, st, s0.pc), fuel);
    }
  }

  /** The block of an arm, and then the skip over the other arm if there is one, and the SYNC. */
  lemma SimInner(w: World, depth: nat, tab: seq<Binding>, b: Block, tail: seq<Instr>, env: Env, s0: Lane, n0: nat, s: Lane, end: int, fuel: nat)
    returns (n: nat, s': Lane)
    requires At(w, depth, tab, env, s0, n0, s) && PlacedBlock(w, tab, b, s.pc) && FineBlock(w.fs, tab, b) && Flag(s.nzp)
    requires tail == [Sync] || (|tail| == 2 && tail[0].Brnzp? && tail[0].nzp == NZP_ALL && tail[1] == Sync)
    requires CodeAt(w, s.pc + Size(tab, b), [tail[0]]) && CodeAt(w, end - 1, [Sync])
    requires end == s.pc + Size(tab, b) + (if |tail| == 2 then tail[0].off + 1 else 1)
    ensures Ends(w, depth, tab, s0, n, s', end, RunBlock(depth, w.fs, w.ids, b, env, s.mem, fuel), fuel)
    decreases depth, fuel, b, 1
  {
    hide Context, At, CodeAt, FineBlock, RunBlock, LowerBlock, Runs, Returned, Agrees;
    AtContext(w, depth, tab, env, s0, n0, s);
    var m, s1 := SimBlock(w, depth, tab, b, env, s, fuel);
    var out := RunBlock(depth, w.fs, w.ids, b, env, s.mem, fuel);
    n, s' := n0 + m, s1;
    EndsAfter(w, depth, tab, env, s0, n0, s, m, s1, s.pc + Size(tab, b), out, fuel, fuel);
    if out.Normal? {
      AtContext(w, depth, tab, out.env, s, m, s1);
      s' := PassOver(w, depth, tab, out.env, tail[0], s0, n, s1);
      n := n + 1;
      if |tail| == 2 {
        s' := PassOver(w, depth, tab, out.env, Sync, s0, n, s');
        n := n + 1;
      }
      AtRuns(w, depth, tab, out.env, s0, n, s');
    }
  }

  // ----- loops -----

  function LoopOf(tab: seq<Binding>, st: Stmt): seq<Instr> {
    if !st.For? || LowerStmt(tab, st).None? then []
    else
      var b := LowerExpr(tab, st.bound, TMP_BASE);
      LoopCode(b.code, Lookup(tab, st.v), b.reg, LowerBlock(tab, st.body).value)
  }

  predicate PlacedLoop(w: World, tab: seq<Binding>, st: Stmt, pc: int) {
    st.For? && LowerStmt(tab, st).Some? && CodeAt(w, pc, LoopOf(tab, st))
  }

  lemma LoopSplit(w: World, pc: int, test: seq<Instr>, v: int, b: int, body: seq<Instr>)
    requires CodeAt(w, pc, LoopCode(test, v, b, body))
    ensures |LoopCode(test, v, b, body)| == |test| + |body| + 4
    ensures CodeAt(w, pc, test)
    ensures CodeAt(w, pc + |test|, [Cmp(v, b)])
    ensures CodeAt(w, pc + |test| + 1, [Brnzp(NZP_ZP, |body| + 3)])
    ensures CodeAt(w, pc + |test| + 2, body)
    ensures CodeAt(w, pc + |test| + 2 + |body|, [Alu(OP_ADD, v, v, TMP_ONE, 0)])
    ensures CodeAt(w, pc + |test| + 3 + |body|, [Brnzp(NZP_ALL, -(|test| + |body| + 3))])
  {
    hide CodeAt;
    var a := [Cmp(v, b), Brnzp(NZP_ZP, |body| + 3)];
    var z := [Alu(OP_ADD, v, v, TMP_ONE, 0), Brnzp(NZP_ALL, -(|test| + |body| + 3))];
    assert LoopCode(test, v, b, body) == test + a + body + z;
    CodeSplit(w, pc, test + a + body, z);
    CodeSplit(w, pc, test + a, body);
    CodeSplit(w, pc, test, a);
    assert a == [a[0]] + [a[1]] && z == [z[0]] + [z[1]];
    CodeSplit(w, pc + |test|, [a[0]], [a[1]]);
    CodeSplit(w, pc + |test| + 2 + |body|, [z[0]], [z[1]]);
  }

  /** Where the pieces of a loop lie. */
  lemma LoopPlaced(w: World, tab: seq<Binding>, st: Stmt, pc: int)
    requires PlacedLoop(w, tab, st, pc) && FineStmt(w.fs, tab, st)
    ensures Placed(w, tab, st.bound, TMP_BASE, pc) && Fine(w.fs, st.bound, TMP_BASE) && FineBlock(w.fs, tab, st.body) && Lookup(tab, st.v) > 0
    ensures var b, v, size := LowerExpr(tab, st.bound, TMP_BASE), Lookup(tab, st.v), Size(tab, st.body);
            && b.Good?
            && var at := pc + |b.code|;
            && |LoopOf(tab, st)| == |b.code| + size + 4
            && CodeAt(w, at, [Cmp(v, b.reg)]) && CodeAt(w, at + 1, [Brnzp(NzpForOp(Geq), size + 3)])
            && PlacedBlock(w, tab, st.body, at + 2)
            && CodeAt(w, at + 2 + size, [Alu(OP_ADD, v, v, TMP_ONE, 0)])
            && CodeAt(w, at + 3 + size, [Brnzp(NZP_ALL, -(|b.code| + size + 3))])
  {
    hide CodeAt, LowerExpr, LowerBlock, LoopCode, Lookup, Fine, FineBlock;
    var b := LowerExpr(tab, st.bound, TMP_BASE);
    LoopSplit(w, pc, b.code, Lookup(tab, st.v), b.reg, LowerBlock(tab, st.body).value);
  }

  /** The constant 1 goes to its register, which no variable uses. */
  lemma StepOne(w: World, depth: nat, tab: seq<Binding>, env: Env, s0: Lane, n: nat, s: Lane) returns (s': Lane)
    requires At(w, depth, tab, env, s0, n, s) && CodeAt(w, s.pc, [Const(TMP_ONE, 1)])
    ensures s'.pc == s.pc + 1 && s'.mem == s.mem && At(w, depth, tab, env, s0, n + 1, s') && Read(w.ids, s', TMP_ONE) == 1
  {
    hide WorldOk, CodeAt, Lookup;
    s' := StepConst(w, s, TMP_ONE, 1);
    assert forall q :: 0 <= q < TMP_BASE ==> Read(w.ids, s', q) == Read(w.ids, s, q);
    AtNext(w, depth, tab, env, s0, n, s, env, 1, s');
  }

  lemma SimFor(w: World, depth: nat, tab: seq<Binding>, st: Stmt, env: Env, s: Lane, fuel: nat)
    returns (n: nat, s': Lane)
    requires Context(w, depth, tab, env, s) && PlacedStmt(w, tab, st, s.pc) && FineStmt(w.fs, tab, st) && st.For?
    ensures Ends(w, depth, tab, s, n, s', EndOf(tab, st, s.pc), RunStmt(depth, w.fs, w.ids, st, env, s.mem, fuel), fuel)
    decreases depth, fuel, st, 2
  {
    hide Context, At, Read, CodeAt, LoopCode, LowerSet, LowerExpr, LowerBlock, Lookup, Fine, FineBlock, Eval, RunLoop, Runs;
    var init := LowerSet(tab, st.v, st.init).value;
    CodeSplit(w, s.pc, init + [Const(TMP_ONE, 1)], LoopOf(tab, st));
    CodeSplit(w, s.pc, init, [Const(TMP_ONE, 1)]);
    n, s' := SimSet(w, depth, tab, st.v, st.init, env, s, fuel);
    var r := SetVar(st.v, Eval(depth, w.fs, w.ids, st.init, env, s.mem, fuel), env);
    if r.Normal? {
      var s1 := StepOne(w, depth, tab, r.env, s, n, s');
      AtContext(w, depth, tab, r.env, s, n + 1, s1);
      var n2, s2 := SimLoop(w, depth, tab, st, r.env, s1, fuel);
      var out := RunLoop(depth, w.fs, w.ids, st, r.env, r.mem, fuel);
      EndsAfter(w, depth, tab, r.env, s, n + 1, s1, n2, s2, EndOf(tab, st, s.pc), out, fuel, fuel);
      n, s' := n + 1 + n2, s2;
    }
  }

  /** The lane after the test of a loop that starts at `s.pc`. */
  ghost predicate Tested(w: World, depth: nat, tab: seq<Binding>, st: Stmt, env: Env, s: Lane, n: nat, s': Lane, r: Value, fuel: nat) {
    && Runs(w, s, n, s')
    && (r.OutOfFuel? ==> n >= fuel && !s'.halted)
    && (r.Val? ==>
          && st.For? && st.v in env && LowerExpr(tab, st.bound, TMP_BASE).Good?
          && s'.pc == (if env[st.v] >= r.v then s.pc + |LoopOf(tab, st)|
                       else s.pc + |LowerExpr(tab, st.bound, TMP_BASE).code| + 2)
          && n >= 1 && s'.mem == r.mem && Flag(s'.nzp) && At(w, depth, tab, env, s, n, s'))
  }

  /** The comparison of a loop and its exit branch, the bound `v` being in its register. */
  lemma FinishTest(w: World, depth: nat, tab: seq<Binding>, st: Stmt, env: Env, v: Int32, s: Lane, n: nat, s1: Lane, fuel: nat)
    returns (s': Lane)
    requires At(w, depth, tab, env, s, n, s1) && PlacedLoop(w, tab, st, s.pc) && FineStmt(w.fs, tab, st) && st.For? && st.v in env
    requires var b := LowerExpr(tab, st.bound, TMP_BASE); b.Good? && s1.pc == s.pc + |b.code| && Read(w.ids, s1, b.reg) == U32(v)
    ensures Tested(w, depth, tab, st, env, s, n + 2, s', Val(v, s1.mem), fuel)
  {
    hide Context, At, Read, PlacedLoop, CodeAt, LoopOf, LowerExpr, FineStmt, Lookup, Runs, Size, NzpForOp, Flag, Compare, Tested;
    TestCode(w, tab, st, s.pc, s1.pc);
    AtReads(w, depth, tab, env, st.v, s, n, s1);
    var reg := LowerExpr(tab, st.bound, TMP_BASE).reg;
    s' := CompareAndBranch(w, depth, tab, env, Geq, Lookup(tab, st.v), reg, env[st.v], v, Size(tab, st.body) + 3, s, n, s1);
    AtRuns(w, depth, tab, env, s, n + 2, s');
    assert Compare(Geq, env[st.v], v) == (env[st.v] >= v) by { IsGeq(env[st.v], v); }
    MakeTested(w, depth, tab, st, env, v, s, n + 2, s', s1.mem, fuel);
  }

  /** The test of a loop: the bound, the comparison, and the exit branch. */
  lemma SimTest(w: World, depth: nat, tab: seq<Binding>, st: Stmt, env: Env, s: Lane, fuel: nat)
    returns (n: nat, s': Lane)
    requires Context(w, depth, tab, env, s) && PlacedLoop(w, tab, st, s.pc) && FineStmt(w.fs, tab, st) && st.For? && st.v in env
    ensures Tested(w, depth, tab, st, env, s, n, s', Eval(depth, w.fs, w.ids, st.bound, env, s.mem, fuel), fuel)
    decreases depth, fuel, st, 0
  {
    hide Context, At, Advanced, Read, PlacedLoop, Placed, LowerExpr, Fine, FineStmt, Eval, Runs;
    TestPlaced(w, tab, st, s.pc);
    AtStart(w, depth, tab, env, s);
    n, s' := SimExpr(w, depth, tab, st.bound, TMP_BASE, env, s, fuel);
    var r := Eval(depth, w.fs, w.ids, st.bound, env, s.mem, fuel);
    if r.Val? {
      AtExpr(w, depth, tab, env, s, 0, s, CallsOf(w.fs, st.bound), TMP_BASE, n, s');
      s' := FinishTest(w, depth, tab, st, env, r.v, s, n, s', fuel);
      n := n + 2;
    }
  }

  lemma IsGeq(a: Int32, b: Int32)
    ensures Compare(Geq, a, b) == (a >= b)
  {
  }

  lemma MakeTested(w: World, depth: nat, tab: seq<Binding>, st: Stmt, env: Env, v: Int32, s: Lane, n: nat, s': Lane, m: Memory, fuel: nat)
    requires Runs(w, s, n, s') && At(w, depth, tab, env, s, n, s') && Flag(s'.nzp) && s'.mem == m && n >= 1
    requires st.For? && st.v in env && LowerExpr(tab, st.bound, TMP_BASE).Good?
    requires s'.pc == (if env[st.v] >= v then s.pc + |LoopOf(tab, st)| else s.pc + |LowerExpr(tab, st.bound, TMP_BASE).code| + 2)
    ensures Tested(w, depth, tab, st, env, s, n, s', Val(v, m), fuel)
  {
    hide Runs, At, Flag, LowerExpr, LoopOf;
  }

  lemma TestCode(w: World, tab: seq<Binding>, st: Stmt, pc: int, at: int)
    requires PlacedLoop(w, tab, st, pc) && FineStmt(w.fs, tab, st) && LowerExpr(tab, st.bound, TMP_BASE).Good?
    requires at == pc + |LowerExpr(tab, st.bound, TMP_BASE).code|
    ensures Lookup(tab, st.v) > 0 && |LoopOf(tab, st)| == at - pc + Size(tab, st.body) + 4
    ensures CodeAt(w, at, [Cmp(Lookup(tab, st.v), LowerExpr(tab, st.bound, TMP_BASE).reg)])
    ensures CodeAt(w, at + 1, [Brnzp(NzpForOp(Geq), Size(tab, st.body) + 3)])
  {
    hide LoopOf, LowerExpr, Fine, CodeAt, Size;
    LoopPlaced(w, tab, st, pc);
  }

  lemma TurnCode(w: World, tab: seq<Binding>, st: Stmt, pc: int, at: int)
    requires PlacedLoop(w, tab, st, pc) && FineStmt(w.fs, tab, st) && LowerExpr(tab, st.bound, TMP_BASE).Good?
    requires at == pc + |LowerExpr(tab, st.bound, TMP_BASE).code| + 2 + Size(tab, st.body)
    ensures Lookup(tab, st.v) > 0
    ensures CodeAt(w, at, [Alu(OP_ADD, Lookup(tab, st.v), Lookup(tab, st.v), TMP_ONE, 0)])
    ensures CodeAt(w, at + 1, [Brnzp(NZP_ALL, pc - at - 1)])
  {
    hide LoopOf, LowerExpr, Fine, CodeAt, Size;
    LoopPlaced(w, tab, st, pc);
  }

  lemma TestPlaced(w: World, tab: seq<Binding>, st: Stmt, pc: int)
    requires PlacedLoop(w, tab, st, pc) && FineStmt(w.fs, tab, st)
    ensures Placed(w, tab, st.bound, TMP_BASE, pc) && Fine(w.fs, st.bound, TMP_BASE) && LowerExpr(tab, st.bound, TMP_BASE).Good?
  {
    hide LoopOf, LowerExpr, Fine, CodeAt;
    LoopPlaced(w, tab, st, pc);
  }

  lemma AtReads(w: World, depth: nat, tab: seq<Binding>, env: Env, x: string, s0: Lane, n: nat, s: Lane)
    requires At(w, depth, tab, env, s0, n, s) && x in env
    ensures Read(w.ids, s, Lookup(tab, x)) == U32(env[x])
  {
  }

  lemma PlusOne(a: Int32)
    ensures AluResult(OP_ADD, U32(a), 1, 0) == U32(S32(a as int + 1))
  {
    WordAdd(a, 1);
    U32Of(a as int + 1);
  }

  /** The increment. */
  lemma StepIncrement(w: World, depth: nat, tab: seq<Binding>, env: Env, x: string, s0: Lane, n: nat, s: Lane) returns (s': Lane)
    requires At(w, depth, tab, env, s0, n, s) && x in env && Read(w.ids, s, TMP_ONE) == 1
    requires CodeAt(w, s.pc, [Alu(OP_ADD, Lookup(tab, x), Lookup(tab, x), TMP_ONE, 0)])
    ensures s'.pc == s.pc + 1 && s'.mem == s.mem && (Flag(s.nzp) ==> Flag(s'.nzp))
    ensures At(w, depth, tab, env[x := S32(env[x] as int + 1)], s0, n + 1, s')
  {
    hide WorldOk, CodeAt, U32, S32, AluResult;
    var v, a := Lookup(tab, x), S32(env[x] as int + 1);
    PlusOne(env[x]);
    s' := One(w, s, Alu(OP_ADD, v, v, TMP_ONE, 0));
    assert s' == Next(Write(s, v, U32(a)));
    AgreesSet(w, depth, tab, env, x, a, s, s');
    AtNext(w, depth, tab, env, s0, n, s, env[x := a], 1, s');
  }

  /** The increment and the jump back to the test, which is at `pc`. */
  lemma StepTurn(w: World, depth: nat, tab: seq<Binding>, st: Stmt, env: Env, pc: int, s0: Lane, n: nat, s: Lane) returns (s': Lane)
    requires At(w, depth, tab, env, s0, n, s) && PlacedLoop(w, tab, st, pc) && FineStmt(w.fs, tab, st) && st.For? && st.v in env
    requires LowerExpr(tab, st.bound, TMP_BASE).Good?
    requires s.pc == pc + |LowerExpr(tab, st.bound, TMP_BASE).code| + 2 + Size(tab, st.body)
    requires Flag(s0.nzp) && Read(w.ids, s0, TMP_ONE) == 1
    ensures s'.pc == pc && s'.mem == s.mem
    ensures At(w, depth, tab, env[st.v := S32(env[st.v] as int + 1)], s0, n + 2, s')
  {
    hide Context, At, Read, PlacedLoop, CodeAt, LowerExpr, FineStmt, Lookup, S32, Size, Flag;
    TurnCode(w, tab, st, pc, s.pc);
    AtContext(w, depth, tab, env, s0, n, s);
    var env' := env[st.v := S32(env[st.v] as int + 1)];
    var s1 := StepIncrement(w, depth, tab, env, st.v, s0, n, s);
    s' := PassOver(w, depth, tab, env', Brnzp(NZP_ALL, pc - s.pc - 1), s0, n + 1, s1);
  }

  lemma SimLoop(w: World, depth: nat, tab: seq<Binding>, st: Stmt, env: Env, s: Lane, fuel: nat)
    returns (n: nat, s': Lane)
    requires Context(w, depth, tab, env, s) && PlacedLoop(w, tab, st, s.pc) && FineStmt(w.fs, tab, st) && st.For?
    requires Read(w.ids, s, TMP_ONE) == 1
    ensures Ends(w, depth, tab, s, n, s', s.pc + |LoopOf(tab, st)|, RunLoop(depth, w.fs, w.ids, st, env, s.mem, fuel), fuel)
    decreases depth, fuel, st, 1
  {
    hide Context, At, Read, PlacedLoop, LoopOf, FineStmt, Eval, RunBlock, LowerExpr;
    n, s' := 0, s;
    AtStart(w, depth, tab, env, s);
    AtContext(w, depth, tab, env, s, 0, s);
    if fuel > 0 && st.v in env {
      n, s' := SimTest(w, depth, tab, st, env, s, fuel);
      var r := Eval(depth, w.fs, w.ids, st.bound, env, s.mem, fuel);
      if r.Val? && env[st.v] < r.v {
        n, s' := SimTurns(w, depth, tab, st, env, s, n, s', fuel);
      }
    }
  }

  /** What the turns of a loop after an entered test come to. */
  function TurnsOf(depth: nat, fs: seq<Func>, ids: Ids, st: Stmt, out: Outcome, fuel: nat): Outcome
    requires st.For?
  {
    match out
    case Normal(env, m) =>
      if st.v !in env then Stuck else RunLoop(depth, fs, ids, st, env[st.v := S32(env[st.v] as int + 1)], m, fuel)
    case o => o
  }

  /** The body of a loop once entered, and all its further turns; the loop starts at `s0`. */
  lemma SimTurns(w: World, depth: nat, tab: seq<Binding>, st: Stmt, env: Env, s0: Lane, n0: nat, s: Lane, fuel: nat)
    returns (n: nat, s': Lane)
    requires At(w, depth, tab, env, s0, n0, s) && PlacedLoop(w, tab, st, s0.pc) && FineStmt(w.fs, tab, st) && st.For? && fuel > 0
    requires LowerExpr(tab, st.bound, TMP_BASE).Good? && s.pc == s0.pc + |LowerExpr(tab, st.bound, TMP_BASE).code| + 2
    requires Flag(s.nzp) && Read(w.ids, s0, TMP_ONE) == 1 && n0 >= 1
    ensures Ends(w, depth, tab, s0, n, s', s0.pc + |LoopOf(tab, st)|,
                 TurnsOf(depth, w.fs, w.ids, st, RunBlock(depth, w.fs, w.ids, st.body, env, s.mem, fuel), fuel - 1), fuel)
    decreases depth, fuel, st, 0
  {
    hide Context, At, Read, PlacedLoop, Placed, PlacedBlock, CodeAt, LoopOf, LowerExpr, FineStmt, FineBlock, Fine, RunBlock, RunLoop, Runs, S32, LowerBlock, NzpForOp, Lookup, Returned, Agrees;
    LoopPlaced(w, tab, st, s0.pc);
    AtContext(w, depth, tab, env, s0, n0, s);
    var m, s1 := SimBlock(w, depth, tab, st.body, env, s, fuel);
    var out := RunBlock(depth, w.fs, w.ids, st.body, env, s.mem, fuel);
    if out.Normal? && st.v in out.env {
      n, s' := SimTurn(w, depth, tab, st, env, out.env, s0, n0, s, m, s1, fuel);
    } else {
      EndsAfter(w, depth, tab, env, s0, n0, s, m, s1, s1.pc, out, fuel, fuel);
      n, s' := n0 + m, s1;
    }
  }

  /** A turn whose body ended normally, and the turns after it. */
  lemma SimTurn(w: World, depth: nat, tab: seq<Binding>, st: Stmt, env: Env, env1: Env, s0: Lane, n0: nat, s: Lane, m: nat, s1: Lane, fuel: nat)
    returns (n: nat, s': Lane)
    requires At(w, depth, tab, env, s0, n0, s) && PlacedLoop(w, tab, st, s0.pc) && FineStmt(w.fs, tab, st) && st.For? && fuel > 0
    requires At(w, depth, tab, env1, s, m, s1) && st.v in env1
    requires LowerExpr(tab, st.bound, TMP_BASE).Good?
    requires s1.pc == s0.pc + |LowerExpr(tab, st.bound, TMP_BASE).code| + 2 + Size(tab, st.body)
    requires Flag(s.nzp) && Read(w.ids, s, TMP_ONE) == 1 && n0 >= 1
    ensures Ends(w, depth, tab, s0, n, s', s0.pc + |LoopOf(tab, st)|,
                 TurnsOf(depth, w.fs, w.ids, st, Normal(env1, s1.mem), fuel - 1), fuel)
    decreases depth, fuel - 1, st, 2
  {
    hide Context, At, Read, PlacedLoop, LoopOf, LowerExpr, FineStmt, RunLoop, S32, Size;
    var env2 := env1[st.v := S32(env1[st.v] as int + 1)];
    var s2 := StepTurn(w, depth, tab, st, env1, s0.pc, s, m, s1);
    AtContext(w, depth, tab, env2, s, m + 2, s2);
    var k, s3 := SimLoop(w, depth, tab, st, env2, s2, fuel - 1);
    var rest := RunLoop(depth, w.fs, w.ids, st, env2, s1.mem, fuel - 1);
    EndsAfter(w, depth, tab, env2, s, m + 2, s2, k, s3, s0.pc + |LoopOf(tab, st)|, rest, fuel - 1, fuel);
    EndsAfter(w, depth, tab, env, s0, n0, s, m + 2 + k, s3, s0.pc + |LoopOf(tab, st)|, rest, fuel, fuel);
    n, s' := n0 + (m + 2 + k), s3;
  }
}
