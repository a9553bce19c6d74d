/** Which contents of a caller's temporary survive a run through a func, for every func and path by path: a temporary is
    written before it is read, so the run forgets its content just if it executes an instruction that writes it. */
module Forgetting {
  import opened Words
  import opened Isa
  import opened Lang
  import opened Sema
  import opened Lowering
  import opened Temporaries
  import opened Layout
  import opened Footprint
  import opened Simulation
  import opened Confinement
  import opened Compiler
  import opened Safety
  import opened Survival

  // ----- positions that are reached only behind a write -----

  function MarkAt(mark: seq<bool>, k: int): bool { 0 <= k < |mark| && mark[k] }

  /** The register is read at marked positions only, and control gets to a marked position only from another one or
      from an instruction that writes the register. */
  predicate Ready(code: seq<Instr>, mark: seq<bool>, r: int, k: nat)
    requires k < |code| == |mark|
  {
    (Reads(code[k], r) ==> mark[k])
    && match code[k]
       case Brnzp(_, off) => 0 <= k + off <= |code| && !MarkAt(mark, k + off) && !MarkAt(mark, k + 1)
       case _ => MarkAt(mark, k + 1) ==> mark[k] || Writes(code[k], r)
  }

  /** A marking that begins unmarked. */
  ghost predicate Prepared(code: seq<Instr>, mark: seq<bool>, r: int) {
    |mark| == |code| && !MarkAt(mark, 0) && forall k :: 0 <= k < |code| ==> Ready(code, mark, r, k)
  }

  lemma Embed(a: seq<Instr>, ma: seq<bool>, m: seq<Instr>, mm: seq<bool>, b: seq<Instr>, mb: seq<bool>, r: int, k: nat)
    requires |ma| == |a| && |mb| == |b| && Prepared(m, mm, r) && !MarkAt(mb, 0) && |a| <= k < |a| + |m|
    ensures Ready(a + m + b, ma + mm + mb, r, k)
  {
    assert Ready(m, mm, r, k - |a|);
    forall j | 0 <= j <= |m|
      ensures MarkAt(ma + mm + mb, |a| + j) == MarkAt(mm, j)
    {
    }
  }

  lemma PreparedCat(a: seq<Instr>, ma: seq<bool>, b: seq<Instr>, mb: seq<bool>, r: int)
    requires Prepared(a, ma, r) && Prepared(b, mb, r)
    ensures Prepared(a + b, ma + mb, r)
  {
    hide Ready;
    assert [] + a + b == a + b && [] + ma + mb == ma + mb && a + b + [] == a + b && ma + mb + [] == ma + mb;
    forall k | 0 <= k < |a + b|
      ensures Ready(a + b, ma + mb, r, k)
    {
      if k < |a| {
        Embed([], [], a, ma, b, mb, r, k);
      } else {
        Embed(a, ma, b, mb, [], [], r, k);
      }
    }
  }

  // ----- straight pieces -----

  predicate Branchless(code: seq<Instr>) {
    forall k :: 0 <= k < |code| ==> !code[k].Brnzp?
  }

  /** The positions of a straight piece behind its first write. */
  function Behind(code: seq<Instr>, r: int): (mark: seq<bool>)
    ensures |mark| == |code|
  {
    seq(|code|, k requires 0 <= k < |code| => Written(code[..k], r))
  }

  lemma {:induction false} ReadBehindWrite(code: seq<Instr>, r: int, k: nat)
    requires Fresh(code, r) && k < |code| && Reads(code[k], r)
    ensures Written(code[..k], r)
    decreases |code|
  {
    if Writes(code[0], r) {
      assert k > 0 && code[..k][0] == code[0];
    } else {
      ReadBehindWrite(code[1..], r, k - 1);
      var j :| 0 <= j < |code[1..][..k - 1]| && Writes(code[1..][..k - 1][j], r);
      assert code[..k][j + 1] == code[1..][..k - 1][j];
    }
  }

  lemma FreshReady(code: seq<Instr>, r: int, k: nat)
    requires Fresh(code, r) && k < |code|
    ensures Reads(code[k], r) ==> Behind(code, r)[k]
    ensures MarkAt(Behind(code, r), k + 1) ==> Behind(code, r)[k] || Writes(code[k], r)
    ensures !MarkAt(Behind(code, r), 0)
  {
    if Reads(code[k], r) {
      ReadBehindWrite(code, r, k);
    }
    if MarkAt(Behind(code, r), k + 1) {
      assert code[..k + 1] == code[..k] + [code[k]];
      WrittenCat(code[..k], [code[k]], r);
    }
  }

  lemma FreshPrepared(code: seq<Instr>, r: int)
    requires Fresh(code, r) && Branchless(code)
    ensures Prepared(code, Behind(code, r), r)
  {
    hide Fresh, Behind;
    forall k | 0 <= k < |code|
      ensures Ready(code, Behind(code, r), r, k)
    {
      FreshReady(code, r, k);
    }
    if code != [] {
      FreshReady(code, r, 0);
    }
  }

  lemma FreshOne(code: seq<Instr>, i: Instr, r: int)
    requires Fresh(code, r) && (Reads(i, r) ==> Written(code, r))
    ensures Fresh(code + [i], r)
  {
    assert [i][1..] == [];
    FreshCat(code, [i], r);
  }

  /** Code that does not read the register needs no marks. */
  lemma UnreadFresh(code: seq<Instr>, r: int)
    requires forall k :: 0 <= k < |code| ==> !Reads(code[k], r)
    ensures Fresh(code, r)
    decreases |code|
  {
    if code != [] {
      UnreadFresh(code[1..], r);
    }
  }

  lemma SimplePrepared(code: seq<Instr>, r: int, t: int, need: int)
    requires Uses(code, r, t, need)
    ensures Prepared(code, Behind(code, r), r)
  {
    hide Fresh, Written, Behind, Prepared;
    FreshPrepared(code, r);
  }

  /** The code of a comparison's operands, the comparison, and its branch. */
  lemma TestFresh(test: seq<Instr>, a: int, b: int, br: Instr, r: int)
    requires Fresh(test, r) && (a == r || b == r ==> Written(test, r)) && br.Brnzp?
    ensures Fresh(test + [Cmp(a, b), br], r)
  {
    FreshOne(test, Cmp(a, b), r);
    FreshOne(test + [Cmp(a, b)], br, r);
    assert test + [Cmp(a, b)] + [br] == test + [Cmp(a, b), br];
  }

  // ----- statements -----

  lemma {:induction false} StmtPrepared(fs: seq<Func>, tab: seq<Binding>, s: Stmt, r: int) returns (mark: seq<bool>)
    requires InRange(tab) && Named(fs, tab, s) && !StmtHasCall(s) && LowerStmt(tab, s).Some? && TMP_BASE <= r < TMP_ONE
    ensures Prepared(LowerStmt(tab, s).value, mark, r)
    decreases s, 1
  {
    hide InRange, Uses, Prepared, Behind, Fresh, Written, Branchless, Arithmetic, ArithmeticAll, HasCall, HasCallAny, Need, NeedAll, ExprOk, LowerSet, LowerExpr, LowerAll, LowerBlock, IfCode, LoopCode, Lookup;
    StmtExact(tab, s);
    match s
    case Decl(x, e) => mark := SetPrepared(tab, x, e, r);
    case Assign(x, e) => mark := SetPrepared(tab, x, e, r);
    case Store(addr, val) => mark := StorePrepared(tab, addr, val, r);
    case If(cond, thn, els) =>
      var test := OperandsTest(tab, cond, r);
      var g := LowerAll(tab, cond.args, TMP_BASE);
      var me := BlockPrepared(fs, tab, els, r);
      var mt := BlockPrepared(fs, tab, thn, r);
      mark := IfPrepared(g.code, cond.op, g.regs[0], g.regs[1], LowerBlock(tab, els).value, me, LowerBlock(tab, thn).value, mt, r);
    case For(x, init, bound, body) =>
      var first := SetPrepared(tab, x, init, r);
      var b := LowerExpr(tab, bound, TMP_BASE);
      BoundTest(tab, bound, r);
      var mb := BlockPrepared(fs, tab, body, r);
      InRangeAt(tab, x);
      var loop := LoopPrepared(b.code, Lookup(tab, x), b.reg, LowerBlock(tab, body).value, mb, r);
      mark := ForPrepared(LowerSet(tab, x, init).value, first, LoopCode(b.code, Lookup(tab, x), b.reg, LowerBlock(tab, body).value), loop, r);
    case Return(None) =>
      RetPrepared(Ret, r);
      mark := [false];
    case Return(Some(e)) =>
      var front := ReturnUses(tab, e, r);
      SimplePrepared(front, r, TMP_BASE, Need(e));
      RetPrepared(Sret, r);
      PreparedCat(front, Behind(front, r), [Sret], [false], r);
      mark := Behind(front, r) + [false];
  }

  lemma RetPrepared(i: Instr, r: int)
    requires i.Ret? || i.Sret?
    ensures Prepared([i], [false], r)
  {
  }

  lemma SetPrepared(tab: seq<Binding>, x: string, e: Expr, r: int) returns (mark: seq<bool>)
    requires InRange(tab) && Lookup(tab, x) > 0 && Arithmetic(tab, e) && !HasCall(e) && Need(e) <= TEMPORARIES && TMP_BASE <= r < TMP_ONE
    ensures LowerSet(tab, x, e).Some? && Prepared(LowerSet(tab, x, e).value, mark, r)
  {
    hide Uses, Prepared;
    SetUses(tab, x, e, r);
    SimplePrepared(LowerSet(tab, x, e).value, r, TMP_BASE, Need(e));
    mark := Behind(LowerSet(tab, x, e).value, r);
  }

  lemma StorePrepared(tab: seq<Binding>, addr: Expr, val: Expr, r: int) returns (mark: seq<bool>)
    requires InRange(tab) && ArithmeticAll(tab, [val, addr]) && !HasCall(addr) && !HasCall(val) && TMP_BASE <= r < TMP_ONE
    requires NeedAll([val, addr]) <= TEMPORARIES
    ensures LowerStmt(tab, Store(addr, val)).Some? && Prepared(LowerStmt(tab, Store(addr, val)).value, mark, r)
  {
    hide InRange, Uses, Prepared, Arithmetic, NeedAll, HasCall, LowerStmt;
    var es := [val, addr];
    assert es[1..][0] == addr && ArithmeticAll(tab, es[1..]);
    StoreUses(tab, addr, val, r);
    SimplePrepared(LowerStmt(tab, Store(addr, val)).value, r, TMP_BASE, NeedAll(es));
    mark := Behind(LowerStmt(tab, Store(addr, val)).value, r);
  }

  /** What a comparison reads its operands have written. */
  lemma OperandsTest(tab: seq<Binding>, cond: Expr, r: int) returns (test: seq<Instr>)
    requires InRange(tab) && cond.Op? && |cond.args| == 2 && ArithmeticAll(tab, cond.args) && !HasCall(cond)
    requires NeedAll(cond.args) <= TEMPORARIES && TMP_BASE <= r < TMP_ONE
    ensures var g := LowerAll(tab, cond.args, TMP_BASE);
            g.GoodAll? && |g.regs| == 2 && g.code == test && Fresh(test, r) && AllSimple(test)
            && (g.regs[0] == r || g.regs[1] == r ==> Written(test, r))
  {
    hide InRange, ArithmeticAll, NeedAll, LowerAll, Fresh, Written;
    ExprsUse(tab, cond.args, TMP_BASE, r) by { CondHasNoCall(cond); }
    OperandsWritten(tab, cond.args, TMP_BASE, r);
    LowerAllShape(tab, cond.args, TMP_BASE);
    var g := LowerAll(tab, cond.args, TMP_BASE);
    assert g.regs[0] in g.regs && g.regs[1] in g.regs;
    test := g.code;
  }

  lemma BoundTest(tab: seq<Binding>, e: Expr, r: int)
    requires InRange(tab) && Arithmetic(tab, e) && !HasCall(e) && Need(e) <= TEMPORARIES && TMP_BASE <= r < TMP_ONE
    ensures var g := LowerExpr(tab, e, TMP_BASE);
            g.Good? && Fresh(g.code, r) && AllSimple(g.code) && (g.reg == r ==> Written(g.code, r))
  {
    hide InRange, Arithmetic, Need, LowerExpr, Fresh, Written;
    ExprUses(tab, e, TMP_BASE, r);
    ResultWritten(tab, e, TMP_BASE, r);
  }

  lemma {:induction false} BlockPrepared(fs: seq<Func>, tab: seq<Binding>, b: Block, r: int) returns (mark: seq<bool>)
    requires InRange(tab) && NamedBlock(fs, tab, b) && !BlockHasCall(b) && LowerBlock(tab, b).Some? && TMP_BASE <= r < TMP_ONE
    ensures Prepared(LowerBlock(tab, b).value, mark, r)
    decreases b, 0
  {
    hide InRange, LowerStmt, Named, StmtHasCall;
    mark := [];
    if b.Seq? {
      hide Prepared;
      var head := StmtPrepared(fs, tab, b.head, r);
      var tail := BlockPrepared(fs, tab, b.tail, r);
      PreparedCat(LowerStmt(tab, b.head).value, head, LowerBlock(tab, b.tail).value, tail, r);
      mark := head + tail;
    }
  }

  lemma IfPrepared(test: seq<Instr>, op: Operator, a: int, b: int, els: seq<Instr>, me: seq<bool>, thn: seq<Instr>, mt: seq<bool>, r: int)
    returns (mark: seq<bool>)
    requires Fresh(test, r) && AllSimple(test) && (a == r || b == r ==> Written(test, r)) && Prepared(els, me, r) && Prepared(thn, mt, r)
    ensures Prepared(IfCode(test, op, a, b, els, thn), mark, r)
  {
    hide NzpForOp, Fresh, Written, Behind;
    var head, mid := test + [Cmp(a, b), Brnzp(NzpForOp(op), 2 + |els|)], [Brnzp(NZP_ALL, 2 + |thn|), Nop];
    TestFresh(test, a, b, Brnzp(NzpForOp(op), 2 + |els|), r);
    var first := Behind(head, r);
    var code := IfCode(test, op, a, b, els, thn);
    mark := first + me + [false, false] + mt + [false];
    assert code == head + els + (mid + thn + [Sync]) && mark == first + me + ([false, false] + mt + [false]);
    forall k | 0 <= k < |code|
      ensures Ready(code, mark, r, k)
    {
      if |head| <= k < |head| + |els| {
        hide Ready, Prepared;
        Embed(head, first, els, me, mid + thn + [Sync], [false, false] + mt + [false], r, k);
      } else if |head| + |els| + 2 <= k < |code| - 1 {
        hide Ready, Prepared;
        Embed(head + els + mid, first + me + [false, false], thn, mt, [Sync], [false], r, k);
      } else if k < |head| {
        FreshReady(head, r, k);
        assert k < |test| ==> Simple(test[k]);
      }
    }
    FreshReady(head, r, 0);
  }

  lemma LoopPrepared(test: seq<Instr>, v: int, b: int, body: seq<Instr>, mb: seq<bool>, r: int) returns (mark: seq<bool>)
    requires Fresh(test, r) && AllSimple(test) && (b == r ==> Written(test, r)) && v < TMP_BASE <= r < TMP_ONE && Prepared(body, mb, r)
    ensures Prepared(LoopCode(test, v, b, body), mark, r)
  {
    hide Fresh, Written, Behind;
    var head := test + [Cmp(v, b), Brnzp(NZP_ZP, |body| + 3)];
    var tail := [Alu(OP_ADD, v, v, TMP_ONE, 0), Brnzp(NZP_ALL, -(|test| + |body| + 3))];
    TestFresh(test, v, b, Brnzp(NZP_ZP, |body| + 3), r);
    var first := Behind(head, r);
    var code := LoopCode(test, v, b, body);
    mark := first + mb + [false, false];
    assert code == head + body + tail;
    FreshReady(head, r, 0);
    forall k | 0 <= k < |code|
      ensures Ready(code, mark, r, k)
    {
      if |head| <= k < |head| + |body| {
        hide Ready, Prepared;
        Embed(head, first, body, mb, tail, [false, false], r, k);
      } else if k < |head| {
        FreshReady(head, r, k);
        assert k < |test| ==> Simple(test[k]);
      }
    }
  }

  lemma ForPrepared(init: seq<Instr>, first: seq<bool>, loop: seq<Instr>, ml: seq<bool>, r: int) returns (mark: seq<bool>)
    requires Prepared(init, first, r) && Prepared(loop, ml, r)
    ensures Prepared(init + [Const(TMP_ONE, 1)] + loop, mark, r)
  {
    assert Prepared([Const(TMP_ONE, 1)], [false], r);
    hide Prepared;
    PreparedCat(init, first, [Const(TMP_ONE, 1)], [false], r);
    PreparedCat(init + [Const(TMP_ONE, 1)], first + [false], loop, ml, r);
    mark := first + [false] + ml;
  }

  // ----- runs -----

  /** The next instruction of the lane writes the register. */
  predicate WritesNow(prog: seq<Instr>, s: Lane, r: int) {
    !s.halted && 0 <= s.pc < |prog| && Writes(prog[s.pc], r)
  }

  /** Some of the next `n` instructions writes it. */
  predicate WritesWithin(ids: Ids, prog: seq<Instr>, s: Lane, n: nat, r: int)
    decreases n
  {
    n > 0 && (WritesNow(prog, s, r) || WritesWithin(ids, prog, Step(ids, prog, s), n - 1, r))
  }

  lemma SetNext(ids: Ids, i: Instr, s: Lane, r: int, v: Word)
    requires (i.Cmp? || i.Brnzp? || i.Nop? || i.Sync? || i.Ret? || i.Sret?) && |s.regs| == 32 && 1 <= r <= 28 && !Reads(i, r)
    ensures |Exec(ids, i, s).regs| == 32 && Exec(ids, i, Set(s, r, v)) == Set(Exec(ids, i, s), r, v)
  {
    hide CompareNzp, NzpMatch;
    if i.Cmp? {
      ReadOther(ids, s, r, v, i.rs1);
      ReadOther(ids, s, r, v, i.rs2);
    }
  }

  /** One step from two lanes that differ in the content of a temporary, at an unmarked position. */
  lemma StepForgets(w: World, code: seq<Instr>, at: int, mark: seq<bool>, s: Lane, r: int, v: Word)
    requires RegionAt(w, false, code, at) && Inside(code, at, s) && Prepared(code, mark, r) && !MarkAt(mark, s.pc - at)
    requires TMP_BASE <= r < TMP_ONE
    ensures var s', t' := Step(w.ids, w.prog, s), Step(w.ids, w.prog, Set(s, r, v));
            && |s'.regs| == 32
            && (WritesNow(w.prog, s, r) ==> t' == s')
            && (!WritesNow(w.prog, s, r) ==>
                  && t' == Set(s', r, v)
                  && (|s'.stack| >= |s.stack| ==> Inside(code, at, s') && s'.stack == s.stack && !MarkAt(mark, s'.pc - at)))
  {
    hide RegionAt, FindFunc, Exec;
    var i := s.pc - at;
    AtRegion(w, false, code, at, i);
    assert Ready(code, mark, r, i);
    if !s.halted {
      var c := code[i];
      assert w.prog[s.pc] == c;
      if Simple(c) {
        StepIndependent(w.ids, c, s, r, v);
        SimpleStep(w.ids, c, s);
      } else {
        SetNext(w.ids, c, s, r, v);
        NextStaysInside(w.ids, c, s);
      }
    }
  }

  lemma NextStaysInside(ids: Ids, i: Instr, s: Lane)
    requires i.Cmp? || i.Brnzp? || i.Nop? || i.Sync? || i.Ret? || i.Sret?
    ensures var s' := Exec(ids, i, s);
            && (i.Sret? && s.stack != [] ==> |s'.stack| < |s.stack|)
            && (!i.Sret? ==> s'.stack == s.stack && s'.pc == (if i.Ret? then s.pc else if i.Brnzp? && NzpMatch(s.nzp, i.nzp) then s.pc + i.off else s.pc + 1))
  {
    hide CompareNzp, NzpMatch;
  }

  lemma {:induction false} StaysWide(ids: Ids, prog: seq<Instr>, s: Lane, n: nat)
    requires |s.regs| == 32
    ensures |Isa.Run(ids, prog, s, n).regs| == 32
    decreases n
  {
    hide AluResult, Read, Load, CompareNzp, NzpMatch;
    if n > 0 {
      StaysWide(ids, prog, Step(ids, prog, s), n - 1);
    }
  }

  /** A run through a func's body from two lanes that differ in a temporary: once the temporary is written they are the same
      lane, and until then they differ in nothing else. */
  lemma {:induction false} RunForgets(w: World, code: seq<Instr>, at: int, mark: seq<bool>, s: Lane, n: nat, r: int, v: Word)
    requires CodeAt(w, at, code) && Region(w.fs, false, code) && Prepared(code, mark, r) && TMP_BASE <= r < TMP_ONE
    requires |s.regs| == 32 && (n > 0 ==> Inside(code, at, s) && !MarkAt(mark, s.pc - at)) && Deep(w, s, n)
    ensures |Isa.Run(w.ids, w.prog, s, n).regs| == 32
    ensures Isa.Run(w.ids, w.prog, Set(s, r, v), n)
            == if WritesWithin(w.ids, w.prog, s, n, r) then Isa.Run(w.ids, w.prog, s, n) else Set(Isa.Run(w.ids, w.prog, s, n), r, v)
    decreases n
  {
    hide CodeAt, Region, Inside, Step, Prepared, WritesNow, MarkAt;
    if n > 0 {
      StepForgets(w, code, at, mark, s, r, v);
      var s1 := Step(w.ids, w.prog, s);
      if n > 1 {
        DeepStep(w, s, n);
      }
      if WritesNow(w.prog, s, r) {
        StaysWide(w.ids, w.prog, s1, n - 1);
      } else {
        RunForgets(w, code, at, mark, s1, n - 1, r, v);
      }
    }
  }

  /** Survival, exactly, for every func of every compiled program, with all its branches and loops. On a run from entering the
      func, up to and including its return, a caller's temporary keeps every content just if the run executes no instruction
      that writes it. If it does execute one, the run ends in the same lane whatever the content was. */
  lemma SurvivesPath(p: Program, ids: Ids, k: nat, s: Lane, n: nat, r: int)
    requires Compile(p).Some? && k < |p.funcs| && TMP_BASE <= r < TMP_ONE
    requires k < |WorldOf(p, ids).starts| && Entered(s, WorldOf(p, ids).starts[k])
    requires forall m: nat :: m < n ==> |Isa.Run(ids, DecodeAll(Compile(p).value), s, m).stack| >= 1
    ensures var prog := DecodeAll(Compile(p).value);
            && |Isa.Run(ids, prog, s, n).regs| == 32
            && (forall v: Word :: Isa.Run(ids, prog, Set(s, r, v), n)
                                  == if WritesWithin(ids, prog, s, n, r) then Isa.Run(ids, prog, s, n) else Set(Isa.Run(ids, prog, s, n), r, v))
            && ((forall v: Word :: Read(ids, Isa.Run(ids, prog, Set(s, r, v), n), r) == v) <==> !WritesWithin(ids, prog, s, n, r))
  {
    hide Compile, Region, CodeAt, FuncCode, DecodeAll, WorldOf, Prepared, WritesWithin, LowerBlock, BlockNeed, NamedBlock, BlockHasCall, EndsInValue;
    var w := WorldOf(p, ids);
    CompiledWorld(p, ids);
    WordsDecode(p, ids);
    var mark := FuncPrepared(p, ids, k, r);
    var at := w.starts[k];
    RegionNonEmpty(w, false, FuncCode(w, k), at);
    var end := Isa.Run(ids, w.prog, s, n);
    StaysWide(ids, w.prog, s, n);
    forall v: Word
      ensures Isa.Run(ids, w.prog, Set(s, r, v), n) == if WritesWithin(ids, w.prog, s, n, r) then end else Set(end, r, v)
    {
      RunForgets(w, FuncCode(w, k), at, mark, s, n, r, v);
    }
    if WritesWithin(ids, w.prog, s, n, r) {
      var other: Word := if Read(ids, end, r) == 0 then 1 else 0;
      assert Read(ids, Isa.Run(ids, w.prog, Set(s, r, other), n), r) != other;
    }
  }

  lemma FuncPrepared(p: Program, ids: Ids, k: nat, r: int) returns (mark: seq<bool>)
    requires Compile(p).Some? && k < |p.funcs| && TMP_BASE <= r < TMP_ONE
    ensures var w := WorldOf(p, ids);
            && |w.fs| == |w.tabs| == |w.starts| == |p.funcs| && RegionAt(w, false, FuncCode(w, k), w.starts[k])
            && Prepared(FuncCode(w, k), mark, r) && !MarkAt(mark, 0)
  {
    hide Compile, LowerBlock, LowerProgram, LowerKernel, Check, Link, NamedBlock, BlockHasCall, EndsInValue, Ready, RegionAt;
    var w, ktab, words := WorldOf(p, ids), KernelTable(p), Compile(p).value;
    CompiledWorld(p, ids);
    CompiledLaid(p, w, ktab, words);
    CodePlaced(p, w, ktab, words);
    AcceptedFunc(p, k);
    GoodRange(w.tabs[k], FUNC_REG_BASE, FUNC_LAST);
    mark := BlockPrepared(p.funcs, w.tabs[k], p.funcs[k].body, r);
  }
}
