/** What becomes of a caller's temporary across a call, exactly. Callees start their own temporaries at R20 again, so an
    operand that is live in a temporary is safe from a func just if the func's statements do not need that many. */
module Survival {
  import opened Words
  import opened Isa
  import opened Lang
  import opened Sema
  import opened Lowering
  import opened Temporaries
  import opened Layout
  import opened Footprint
  import opened Simulation
  import opened Confinement
  import opened Compiler
  import opened Safety

  // ----- straight funcs -----

  /** Assignments and stores, and a `return expr;` at the end. */
  predicate StraightBody(b: Block) {
    b.Seq? && if b.tail.End? then b.head.Return? && b.head.ret.Some? else (b.head.Decl? || b.head.Assign? || b.head.Store?) && StraightBody(b.tail)
  }

  /** The body's code is simple instructions and an SRET; it writes exactly the temporaries its statements need. */
  lemma {:induction false} BodyUses(fs: seq<Func>, tab: seq<Binding>, b: Block, r: int) returns (front: seq<Instr>)
    requires InRange(tab) && StraightBody(b) && NamedBlock(fs, tab, b) && !BlockHasCall(b) && LowerBlock(tab, b).Some?
    requires TMP_BASE <= r < TMP_ONE
    ensures LowerBlock(tab, b) == Some(front + [Sret]) && Uses(front, r, TMP_BASE, BlockNeed(b))
    decreases b
  {
    hide Uses, Arithmetic, ArithmeticAll, HasCall, Need, NeedAll, InRange, LowerSet, LowerStmt, ExprOk;
    StmtExact(tab, b.head);
    if b.tail.End? {
      front := ReturnUses(tab, b.head.ret.value, r);
      assert front + [Sret] + [] == front + [Sret];
    } else {
      HeadUses(fs, tab, b.head, r);
      var head := LowerStmt(tab, b.head).value;
      var rest := BodyUses(fs, tab, b.tail, r);
      UsesCat(head, rest, r, TMP_BASE, StmtNeed(b.head), 0, BlockNeed(b.tail), BlockNeed(b));
      front := head + rest;
      assert head + (rest + [Sret]) == front + [Sret];
    }
  }

  lemma HeadUses(fs: seq<Func>, tab: seq<Binding>, s: Stmt, r: int)
    requires InRange(tab) && (s.Decl? || s.Assign? || s.Store?) && Named(fs, tab, s) && !StmtHasCall(s) && LowerStmt(tab, s).Some?
    requires TMP_BASE <= r < TMP_ONE
    ensures Uses(LowerStmt(tab, s).value, r, TMP_BASE, StmtNeed(s))
  {
    hide Uses, Arithmetic, HasCall, Need, NeedAll, InRange, LowerSet, ExprOk;
    StmtExact(tab, s);
    match s
    case Decl(x, e) => SetUses(tab, x, e, r);
    case Assign(x, e) => SetUses(tab, x, e, r);
    case Store(addr, val) =>
      var es := [val, addr];
      assert es[1..][0] == addr;
      assert ArithmeticAll(tab, es) && ArithmeticAll(tab, es[1..]);
      StoreUses(tab, addr, val, r);
  }

  // ----- running simple code -----

  function ExecAll(ids: Ids, code: seq<Instr>, s: Lane): Lane {
    if code == [] then s else ExecAll(ids, code[1..], Exec(ids, code[0], s))
  }

  lemma SimpleStep(ids: Ids, i: Instr, s: Lane)
    requires Simple(i) && |s.regs| == 32
    ensures var s' := Exec(ids, i, s); s'.pc == s.pc + 1 && |s'.regs| == 32 && s'.halted == s.halted && s'.stack == s.stack
  {
    hide AluResult, Load;
  }

  lemma {:induction false} RunSimple(w: World, code: seq<Instr>, s: Lane)
    requires AllSimple(code) && CodeAt(w, s.pc, code) && |s.regs| == 32 && !s.halted
    ensures Isa.Run(w.ids, w.prog, s, |code|) == ExecAll(w.ids, code, s)
    ensures var s' := ExecAll(w.ids, code, s); s'.pc == s.pc + |code| && |s'.regs| == 32 && !s'.halted && s'.stack == s.stack
    decreases |code|
  {
    hide CodeAt, Exec;
    if code != [] {
      assert code == [code[0]] + code[1..];
      CodeSplit(w, s.pc, [code[0]], code[1..]);
      SimpleStep(w.ids, code[0], s);
      var s1 := One(w, s, code[0]);
      RunSimple(w, code[1..], s1);
      RunAdd(w.ids, w.prog, s, 1, |code| - 1);
    }
  }

  lemma {:induction false} UnwrittenKept(ids: Ids, code: seq<Instr>, s: Lane, r: int)
    requires AllSimple(code) && |s.regs| == 32 && 1 <= r <= 28 && !Written(code, r)
    ensures |ExecAll(ids, code, s).regs| == 32 && ExecAll(ids, code, s).regs[r] == s.regs[r]
    decreases |code|
  {
    hide AluResult, Load;
    if code != [] {
      assert !Writes(code[0], r);
      forall k | 0 <= k < |code[1..]|
        ensures !Writes(code[1..][k], r)
      {
        assert code[1..][k] == code[k + 1];
      }
      SimpleStep(ids, code[0], s);
      UnwrittenKept(ids, code[1..], Exec(ids, code[0], s), r);
    }
  }

  function Set(s: Lane, r: int, v: Word): Lane
    requires 0 <= r < |s.regs|
  {
    s.(regs := s.regs[r := v])
  }

  lemma ReadOther(ids: Ids, s: Lane, r: int, v: Word, q: int)
    requires |s.regs| == 32 && 1 <= r <= 28 && q != r
    ensures Read(ids, Set(s, r, v), q) == Read(ids, s, q)
  {
  }

  lemma WriteOther(s: Lane, r: int, v: Word, d: int, x: Word)
    requires |s.regs| == 32 && 1 <= r <= 28
    ensures |Next(Write(s, d, x)).regs| == 32
    ensures Next(Write(Set(s, r, v), d, x)) == if d == r then Next(Write(s, d, x)) else Set(Next(Write(s, d, x)), r, v)
  {
  }

  /** An instruction that does not read a register does the same whatever is in it. */
  lemma StepIndependent(ids: Ids, i: Instr, s: Lane, r: int, v: Word)
    requires Simple(i) && |s.regs| == 32 && 1 <= r <= 28 && !Reads(i, r)
    ensures |Exec(ids, i, s).regs| == 32
    ensures Exec(ids, i, Set(s, r, v)) == if Writes(i, r) then Exec(ids, i, s) else Set(Exec(ids, i, s), r, v)
  {
    hide AluResult, Load, Read, Write, Next;
    match i
    case Alu(op, rd, a, b, c) =>
      ReadOther(ids, s, r, v, a);
      ReadOther(ids, s, r, v, b);
      ReadOther(ids, s, r, v, c);
      WriteOther(s, r, v, rd, AluResult(op, Read(ids, s, a), Read(ids, s, b), Read(ids, s, c)));
    case Ldr(rd, base, imm) =>
      ReadOther(ids, s, r, v, base);
      WriteOther(s, r, v, rd, Load(s.mem, U32(Read(ids, s, base) + imm)));
    case Str(src, base, imm) =>
      ReadOther(ids, s, r, v, src);
      ReadOther(ids, s, r, v, base);
      NextSet(s.(mem := s.mem[U32(Read(ids, s, base) + imm) := Read(ids, s, src)]), r, v);
    case Const(rd, imm) => WriteOther(s, r, v, rd, U32(imm));
  }

  lemma NextSet(s: Lane, r: int, v: Word)
    requires |s.regs| == 32 && 1 <= r <= 28
    ensures |Next(s).regs| == 32 && Next(Set(s, r, v)) == Set(Next(s), r, v)
  {
  }

  /** Code that writes a register before reading it forgets what was in it. */
  lemma {:induction false} FreshForgets(ids: Ids, code: seq<Instr>, s: Lane, r: int, v: Word)
    requires AllSimple(code) && |s.regs| == 32 && 1 <= r <= 28 && Fresh(code, r) && Written(code, r)
    ensures ExecAll(ids, code, Set(s, r, v)) == ExecAll(ids, code, s)
    decreases |code|
  {
    hide Exec;
    StepIndependent(ids, code[0], s, r, v);
    SimpleStep(ids, code[0], s);
    if !Writes(code[0], r) {
      var k :| 0 <= k < |code| && Writes(code[k], r);
      assert Writes(code[1..][k - 1], r);
      FreshForgets(ids, code[1..], Exec(ids, code[0], s), r, v);
    }
  }

  // ----- the call -----

  /** A lane that has just entered a func. */
  predicate Entered(s: Lane, start: int) {
    s.pc == start && |s.stack| == 1 && |s.regs| == 32 && !s.halted
  }

  /** Whatever a lane holds in `r` when it enters the func, it holds when it is back. */
  ghost predicate Survives(w: World, start: int, steps: nat, r: int)
    requires 0 <= r < 32
  {
    forall s: Lane :: Entered(s, start) ==>
      var s' := Isa.Run(w.ids, w.prog, s, steps);
      |s'.regs| == 32 && s'.stack == [] && s'.pc == s.stack[0] && s'.regs[r] == s.regs[r]
  }

  lemma RunStraight(w: World, front: seq<Instr>, s: Lane)
    requires AllSimple(front) && CodeAt(w, s.pc, front + [Sret]) && Entered(s, s.pc)
    ensures var s1, s2 := ExecAll(w.ids, front, s), Isa.Run(w.ids, w.prog, s, |front| + 1);
            |s1.regs| == 32 && s2.regs == s1.regs && s2.stack == [] && s2.pc == s.stack[0]
  {
    hide CodeAt, ExecAll;
    CodeSplit(w, s.pc, front, [Sret]);
    RunSimple(w, front, s);
    var s1 := ExecAll(w.ids, front, s);
    var s2 := One(w, s1, Sret);
    RunAdd(w.ids, w.prog, s, |front|, 1);
  }

  /** A caller's temporary survives the call of a straight func, for every content of it and of the memory, exactly if the
      func's statements need fewer temporaries than lie below it. */
  lemma SurvivesExactly(w: World, fs: seq<Func>, tab: seq<Binding>, b: Block, start: nat, r: int)
    requires InRange(tab) && StraightBody(b) && NamedBlock(fs, tab, b) && !BlockHasCall(b) && TMP_BASE <= r < TMP_ONE
    requires LowerBlock(tab, b).Some? && CodeAt(w, start, LowerBlock(tab, b).value)
    ensures Survives(w, start, |LowerBlock(tab, b).value|, r) <==> r >= TMP_BASE + BlockNeed(b)
  {
    hide CodeAt, ExecAll, Isa.Run, StraightBody, InRange, LowerBlock, BlockNeed, NamedBlock, BlockHasCall;
    var front := BodyUses(fs, tab, b, r);
    var steps := |front| + 1;
    UsesSame(front, r, TMP_BASE, BlockNeed(b));
    if Written(front, r) {
      var zero := Lane(start, seq(32, i => 0), 0, map[], [0], false);
      var one := Set(zero, r, 1);
      FreshForgets(w.ids, front, zero, r, 1);
      RunStraight(w, front, zero);
      RunStraight(w, front, one);
      assert Entered(zero, start) && Entered(one, start);
      assert Isa.Run(w.ids, w.prog, zero, steps).regs[r] == Isa.Run(w.ids, w.prog, one, steps).regs[r];
    } else {
      forall s: Lane | Entered(s, start)
        ensures var s' := Isa.Run(w.ids, w.prog, s, steps);
                |s'.regs| == 32 && s'.stack == [] && s'.pc == s.stack[0] && s'.regs[r] == s.regs[r]
      {
        UnwrittenKept(w.ids, front, s, r);
        RunStraight(w, front, s);
      }
    }
  }

  /** The condition `SafeExpr` puts on an operand that is held across a call is therefore exact for straight funcs: the
      operand's register keeps every content just if the condition holds. */
  lemma OperandExact(w: World, fs: seq<Func>, tab: seq<Binding>, b: Block, start: nat, caller: seq<Binding>, e: Expr, t: int)
    requires InRange(tab) && StraightBody(b) && NamedBlock(fs, tab, b) && !BlockHasCall(b)
    requires LowerBlock(tab, b).Some? && CodeAt(w, start, LowerBlock(tab, b).value)
    requires TMP_BASE <= t <= TMP_ONE && LowerExpr(caller, e, t).Good? && !Steady(e)
    ensures TMP_BASE <= LowerExpr(caller, e, t).reg < TMP_ONE
    ensures Survives(w, start, |LowerBlock(tab, b).value|, LowerExpr(caller, e, t).reg) <==> OutOfReach(e, t, Some(BlockNeed(b)))
  {
    hide CodeAt, StraightBody, InRange, LowerBlock, BlockNeed, NamedBlock, BlockHasCall, Survives, LowerExpr;
    LowerShape(caller, e, t);
    SurvivesExactly(w, fs, tab, b, start, LowerExpr(caller, e, t).reg);
  }

  // ----- whole programs -----

  /** The temporaries an accepted func writes, with all its branches and loops, are exactly the first ones, as many as
      its statements need. */
  lemma FuncWrites(p: Program, ids: Ids, k: nat, r: int)
    requires Compile(p).Some? && k < |p.funcs| && TMP_BASE <= r < TMP_ONE
    ensures var w := WorldOf(p, ids);
            |w.fs| == |w.tabs| == |w.starts| == |p.funcs| && RegionAt(w, false, FuncCode(w, k), w.starts[k])
            && (Written(FuncCode(w, k), r) <==> r < TMP_BASE + BlockNeed(p.funcs[k].body))
  {
    hide Compile, LowerBlock, LowerProgram, LowerKernel, Check, Link, NamedBlock, BlockHasCall, EndsInValue, BlockNeed, Written, RegionAt;
    var w, ktab, words := WorldOf(p, ids), KernelTable(p), Compile(p).value;
    CompiledWorld(p, ids);
    CompiledLaid(p, w, ktab, words);
    CodePlaced(p, w, ktab, words);
    AcceptedFunc(p, k);
    GoodRange(w.tabs[k], FUNC_REG_BASE, FUNC_LAST);
    BlockWrites(p.funcs, w.tabs[k], p.funcs[k].body, r);
  }

  /** In every run of every compiled program from entering a func up to and including its return, a temporary behind those
      the func needs keeps its content: whatever the path, and whether or not the func ever returns. */
  lemma CallSpares(p: Program, ids: Ids, k: nat, s: Lane, n: nat, r: int)
    requires Compile(p).Some? && k < |p.funcs| && TMP_BASE + BlockNeed(p.funcs[k].body) <= r < TMP_ONE
    requires k < |WorldOf(p, ids).starts| && Entered(s, WorldOf(p, ids).starts[k])
    requires forall m: nat :: m < n ==> |Isa.Run(ids, DecodeAll(Compile(p).value), s, m).stack| >= 1
    ensures Read(ids, Isa.Run(ids, DecodeAll(Compile(p).value), s, n), r) == s.regs[r]
  {
    hide Compile, BlockNeed, Written, Region, CodeAt, FuncCode, DecodeAll, WorldOf;
    var w := WorldOf(p, ids);
    CompiledWorld(p, ids);
    WordsDecode(p, ids);
    FuncWrites(p, ids, k, r);
    RegionNonEmpty(w, false, FuncCode(w, k), w.starts[k]);
    RunConfined(w, FuncCode(w, k), w.starts[k], s, n, r);
  }
}
