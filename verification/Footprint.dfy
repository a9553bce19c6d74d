/** Which temporaries emitted code writes: exactly the first ones, as many as the source needs. */
module Footprint {
  import opened Words
  import opened Isa
  import opened Lang
  import opened Sema
  import opened Lowering
  import opened Temporaries
  import opened Layout

  // ----- reads and writes of one register -----

  predicate Reads(i: Instr, r: int) {
    match i
    case Alu(_, _, a, b, c) => a == r || b == r || c == r
    case Ldr(_, base, _) => base == r
    case Str(src, base, _) => src == r || base == r
    case Cmp(a, b) => a == r || b == r
    case _ => false
  }

  predicate Writes(i: Instr, r: int) {
    match i
    case Alu(_, rd, _, _, _) => rd == r
    case Ldr(rd, _, _) => rd == r
    case Const(rd, _) => rd == r
    case _ => false
  }

  predicate Simple(i: Instr) {
    i.Alu? || i.Ldr? || i.Str? || i.Const?
  }

  predicate AllSimple(code: seq<Instr>) {
    forall k :: 0 <= k < |code| ==> Simple(code[k])
  }

  predicate Written(code: seq<Instr>, r: int) {
    exists k :: 0 <= k < |code| && Writes(code[k], r)
  }

  /** The register is not read before it is written. */
  predicate Fresh(code: seq<Instr>, r: int) {
    code == [] || (!Reads(code[0], r) && (Writes(code[0], r) || Fresh(code[1..], r)))
  }

  lemma WrittenCat(a: seq<Instr>, b: seq<Instr>, r: int)
    ensures Written(a + b, r) <==> Written(a, r) || Written(b, r)
  {
    if k :| 0 <= k < |a| && Writes(a[k], r) {
      assert Writes((a + b)[k], r);
    }
    if k :| 0 <= k < |b| && Writes(b[k], r) {
      assert Writes((a + b)[|a| + k], r);
    }
  }

  lemma {:induction false} FreshCat(a: seq<Instr>, b: seq<Instr>, r: int)
    requires Fresh(a, r) && (Written(a, r) || Fresh(b, r))
    ensures Fresh(a + b, r)
    decreases |a|
  {
    if a == [] {
      assert a + b == b;
    } else if !Writes(a[0], r) {
      assert (a + b)[1..] == a[1..] + b;
      if k :| 0 <= k < |a| && Writes(a[k], r) {
        assert Writes(a[1..][k - 1], r);
      }
      FreshCat(a[1..], b, r);
    }
  }

  // ----- what the code of an expression does to a temporary -----

  /** In the code of an expression entered at `t` the temporary `r` is fresh, and it is written just if it is among those needed. */
  predicate Uses(code: seq<Instr>, r: int, t: int, need: int) {
    AllSimple(code) && Fresh(code, r) && (Written(code, r) <==> t <= r < t + need)
  }

  lemma UsesNothing(r: int, t: int)
    ensures Uses([], r, t, 0)
  {
  }

  /** One instruction behind code that has written the temporaries it reads. */
  lemma UsesOne(code: seq<Instr>, i: Instr, r: int, t: int, need: int, need': int)
    requires Uses(code, r, t, need) && Simple(i) && (Reads(i, r) ==> Written(code, r))
    requires Written(code, r) || Writes(i, r) <==> t <= r < t + need'
    ensures Uses(code + [i], r, t, need')
  {
    assert Written([i], r) <==> Writes(i, r) by {
      if Writes(i, r) { assert Writes([i][0], r); }
    }
    WrittenCat(code, [i], r);
    if !Written(code, r) {
      assert [i][1..] == [];
      assert Fresh([i], r);
    }
    FreshCat(code, [i], r);
  }

  /** Two pieces, the second entered behind what the first one holds. */
  lemma UsesCat(a: seq<Instr>, b: seq<Instr>, r: int, t: int, need: int, held: int, need': int, all: int)
    requires Uses(a, r, t, need) && Uses(b, r, t + held, need') && 0 <= held <= need
    requires all == Max(need, held + need')
    ensures Uses(a + b, r, t, all)
  {
    WrittenCat(a, b, r);
    FreshCat(a, b, r);
  }

  lemma {:induction false} ExprUses(tab: seq<Binding>, e: Expr, t: int, r: int)
    requires InRange(tab) && Arithmetic(tab, e) && !HasCall(e) && TMP_BASE <= t && t + Need(e) <= TMP_ONE && TMP_BASE <= r < TMP_ONE
    ensures LowerExpr(tab, e, t).Good? && Uses(LowerExpr(tab, e, t).code, r, t, Need(e))
    decreases e, 1
  {
    hide InRange, Folds, Uses, AluInstr, Arithmetic, Fold;
    UsesNothing(r, t);
    NeedExact(tab, e, t);
    match e
    case Lit(v) => ConstUses(t, v % 0x1_0000, r);
    case Op(op, args) =>
      OpParts(tab, e);
      if Folds(e) {
        FoldRange(e);
        ConstUses(t, Fold(e).value, r);
      } else {
        ExprsUse(tab, args, t, r);
        OpUses(tab, op, args, t, r);
      }
    case MemLoad(a) =>
      LoadParts(tab, e);
      ExprUses(tab, a, t, r);
      LoadUses(tab, a, t, r);
    case _ =>
  }

  lemma OpParts(tab: seq<Binding>, e: Expr)
    requires e.Op? && Arithmetic(tab, e) && !HasCall(e)
    ensures |e.args| == Arity(e.op) && !IsComparison(e.op) && ArithmeticAll(tab, e.args) && !HasCallAny(e.args)
  {
  }

  lemma LoadParts(tab: seq<Binding>, e: Expr)
    requires e.MemLoad? && Arithmetic(tab, e) && !HasCall(e)
    ensures Arithmetic(tab, e.addr) && !HasCall(e.addr)
  {
  }

  lemma ConstUses(t: int, v: int, r: int)
    ensures Uses([Const(t, v)], r, t, 1)
  {
    UsesNothing(r, t);
    assert Simple(Const(t, v)) && !Reads(Const(t, v), r);
    UsesOne([], Const(t, v), r, t, 0, 1);
    assert [] + [Const(t, v)] == [Const(t, v)];
  }

  lemma LoadUses(tab: seq<Binding>, a: Expr, t: int, r: int)
    requires InRange(tab) && Arithmetic(tab, a) && TMP_BASE <= t && t + Need(MemLoad(a)) <= TMP_ONE && TMP_BASE <= r < TMP_ONE
    requires LowerExpr(tab, a, t).Good? && Uses(LowerExpr(tab, a, t).code, r, t, Need(a))
    ensures LowerExpr(tab, MemLoad(a), t).Good? && Uses(LowerExpr(tab, MemLoad(a), t).code, r, t, Need(MemLoad(a)))
  {
    hide Uses, Need;
    var g := LowerExpr(tab, a, t);
    NeedExact(tab, MemLoad(a), t);
    NeedExact(tab, a, t);
    HeldWithinNeed(a);
    LowerShape(tab, a, t);
    ResultWritten(tab, a, t, r);
    UsesSame(g.code, r, t, Need(a));
    NeedOfLoad(a);
    UsesOne(g.code, Ldr(g.next, g.reg, 0), r, t, Need(a), Need(MemLoad(a)));
  }

  lemma NeedOfLoad(a: Expr)
    ensures Need(MemLoad(a)) == Max(Need(a), Held(a) + 1)
  {
  }

  lemma UsesSame(code: seq<Instr>, r: int, t: int, need: int)
    requires Uses(code, r, t, need)
    ensures Written(code, r) <==> t <= r < t + need
  {
  }

  /** The register an expression leaves its value in is a variable's, an id, or among the temporaries it needs. */
  lemma ResultWritten(tab: seq<Binding>, e: Expr, t: int, r: int)
    requires InRange(tab) && TMP_BASE <= t <= TMP_ONE && LowerExpr(tab, e, t).Good? && Arithmetic(tab, e) && TMP_BASE <= r < TMP_ONE
    ensures LowerExpr(tab, e, t).reg == r ==> t <= r < t + Need(e)
  {
    hide Arithmetic, Need;
    LowerShape(tab, e, t);
    NeedExact(tab, e, t);
    HeldWithinNeed(e);
  }

  lemma OpUses(tab: seq<Binding>, op: Operator, args: seq<Expr>, t: int, r: int)
    requires InRange(tab) && |args| == Arity(op) && !IsComparison(op) && ArithmeticAll(tab, args) && TMP_BASE <= t < TMP_ONE && TMP_BASE <= r < TMP_ONE
    requires LowerAll(tab, args, t).GoodAll? && Uses(LowerAll(tab, args, t).code, r, t, NeedAll(args))
    ensures var g := LowerAll(tab, args, t); Uses(g.code + [AluInstr(op, t, g.regs)], r, t, Max(1, NeedAll(args)))
  {
    hide Uses, NeedAll, ArithmeticAll, InRange;
    var g := LowerAll(tab, args, t);
    OperandsWritten(tab, args, t, r);
    UsesSame(g.code, r, t, NeedAll(args));
    UsesOne(g.code, AluInstr(op, t, g.regs), r, t, NeedAll(args), Max(1, NeedAll(args)));
  }

  lemma {:induction false} OperandsWritten(tab: seq<Binding>, es: seq<Expr>, t: int, r: int)
    requires InRange(tab) && ArithmeticAll(tab, es) && TMP_BASE <= t <= TMP_ONE && LowerAll(tab, es, t).GoodAll? && TMP_BASE <= r < TMP_ONE
    ensures r in LowerAll(tab, es, t).regs ==> t <= r < t + NeedAll(es)
    decreases |es|
  {
    hide InRange, Arithmetic, Need;
    if es != [] {
      ResultWritten(tab, es[0], t, r);
      NeedExact(tab, es[0], t);
      LowerShape(tab, es[0], t);
      OperandsWritten(tab, es[1..], t + Held(es[0]), r);
    }
  }

  lemma {:induction false} ExprsUse(tab: seq<Binding>, es: seq<Expr>, t: int, r: int)
    requires InRange(tab) && ArithmeticAll(tab, es) && !HasCallAny(es) && TMP_BASE <= t && t + NeedAll(es) <= TMP_ONE && TMP_BASE <= r < TMP_ONE
    ensures LowerAll(tab, es, t).GoodAll? && Uses(LowerAll(tab, es, t).code, r, t, NeedAll(es))
    decreases es, 0
  {
    hide InRange, Uses, Arithmetic, Need;
    UsesNothing(r, t);
    if es != [] {
      HeldWithinNeed(es[0]);
      ExprUses(tab, es[0], t, r);
      NeedExact(tab, es[0], t);
      ExprsUse(tab, es[1..], t + Held(es[0]), r);
      UsesCat(LowerExpr(tab, es[0], t).code, LowerAll(tab, es[1..], t + Held(es[0])).code, r, t, Need(es[0]), Held(es[0]),
              NeedAll(es[1..]), NeedAll(es));
    }
  }

  // ----- statements -----

  lemma MovUses(code: seq<Instr>, dst: int, src: int, r: int, need: int)
    requires Uses(code, r, TMP_BASE, need) && dst < TMP_BASE <= r && (src == r ==> Written(code, r))
    ensures Uses(code + Mov(dst, src), r, TMP_BASE, need)
  {
    hide Uses;
    if dst == src {
      assert code + [] == code;
    } else {
      UsesSame(code, r, TMP_BASE, need);
      UsesOne(code, Alu(OP_ADD, dst, src, 0, 0), r, TMP_BASE, need, need);
    }
  }

  lemma SetUses(tab: seq<Binding>, x: string, e: Expr, r: int)
    requires InRange(tab) && Lookup(tab, x) > 0 && Arithmetic(tab, e) && !HasCall(e) && Need(e) <= TEMPORARIES && TMP_BASE <= r < TMP_ONE
    ensures LowerSet(tab, x, e).Some? && Uses(LowerSet(tab, x, e).value, r, TMP_BASE, Need(e))
  {
    hide Uses, Arithmetic, Need, HasCall;
    ExprUses(tab, e, TMP_BASE, r);
    ResultWritten(tab, e, TMP_BASE, r);
    var g := LowerExpr(tab, e, TMP_BASE);
    UsesSame(g.code, r, TMP_BASE, Need(e));
    MovUses(g.code, Lookup(tab, x), g.reg, r, Need(e));
  }

  lemma StoreUses(tab: seq<Binding>, addr: Expr, val: Expr, r: int)
    requires InRange(tab) && Arithmetic(tab, addr) && Arithmetic(tab, val) && !HasCall(addr) && !HasCall(val) && TMP_BASE <= r < TMP_ONE
    requires NeedAll([val, addr]) <= TEMPORARIES
    ensures LowerStmt(tab, Store(addr, val)).Some? && Uses(LowerStmt(tab, Store(addr, val)).value, r, TMP_BASE, NeedAll([val, addr]))
  {
    hide Uses, Arithmetic, Need, HasCall;
    var es := [val, addr];
    var rest := es[1..];
    assert rest == [addr] && rest[1..] == [];
    assert ArithmeticAll(tab, rest[1..]) && !HasCallAny(rest[1..]);
    assert ArithmeticAll(tab, rest) && !HasCallAny(rest);
    assert ArithmeticAll(tab, es) && !HasCallAny(es);
    hide NeedAll, ArithmeticAll, HasCallAny;
    ExprsUse(tab, es, TMP_BASE, r);
    OperandsWritten(tab, es, TMP_BASE, r);
    var g := LowerAll(tab, es, TMP_BASE);
    UsesSame(g.code, r, TMP_BASE, NeedAll(es));
    assert g.regs[0] in g.regs && g.regs[1] in g.regs;
    UsesOne(g.code, Str(g.regs[0], g.regs[1], 0), r, TMP_BASE, NeedAll(es), NeedAll(es));
  }

  lemma ReturnUses(tab: seq<Binding>, e: Expr, r: int) returns (front: seq<Instr>)
    requires InRange(tab) && Arithmetic(tab, e) && !HasCall(e) && Need(e) <= TEMPORARIES && TMP_BASE <= r < TMP_ONE
    ensures LowerStmt(tab, Return(Some(e))) == Some(front + [Sret]) && Uses(front, r, TMP_BASE, Need(e))
  {
    hide Uses, Arithmetic, Need, HasCall;
    ExprUses(tab, e, TMP_BASE, r);
    ResultWritten(tab, e, TMP_BASE, r);
    var g := LowerExpr(tab, e, TMP_BASE);
    UsesSame(g.code, r, TMP_BASE, Need(e));
    MovUses(g.code, FUNC_REG_RET, g.reg, r, Need(e));
    front := g.code + Mov(FUNC_REG_RET, g.reg);
  }

  // ----- whole bodies, with branches and loops -----

  /** Of the temporaries, the code writes the first `need`, and no others. */
  predicate WritesFirst(code: seq<Instr>, need: int, r: int) {
    Written(code, r) <==> r < TMP_BASE + need
  }

  lemma WritesNothing(code: seq<Instr>, r: int)
    requires r >= TMP_BASE && forall k :: 0 <= k < |code| ==> !Writes(code[k], r)
    ensures WritesFirst(code, 0, r)
  {
  }

  lemma WritesCat(a: seq<Instr>, m: int, b: seq<Instr>, n: int, r: int)
    requires WritesFirst(a, m, r) && WritesFirst(b, n, r)
    ensures WritesFirst(a + b, Max(m, n), r)
  {
    WrittenCat(a, b, r);
  }

  lemma UsesFirst(code: seq<Instr>, need: int, r: int)
    requires Uses(code, r, TMP_BASE, need) && r >= TMP_BASE
    ensures WritesFirst(code, need, r)
  {
  }

  lemma {:induction false} StmtWrites(fs: seq<Func>, tab: seq<Binding>, s: Stmt, r: int)
    requires InRange(tab) && Named(fs, tab, s) && !StmtHasCall(s) && LowerStmt(tab, s).Some? && TMP_BASE <= r < TMP_ONE
    ensures WritesFirst(LowerStmt(tab, s).value, StmtNeed(s), r)
    decreases s, 1
  {
    hide InRange, Uses, WritesFirst, Arithmetic, ArithmeticAll, HasCall, HasCallAny, Need, NeedAll, ExprOk, LowerSet, LowerExpr, LowerAll, LowerBlock, IfCode, LoopCode, Lookup;
    StmtExact(tab, s);
    match s
    case Decl(x, e) =>
      SetUses(tab, x, e, r);
      UsesFirst(LowerSet(tab, x, e).value, Need(e), r);
    case Assign(x, e) =>
      SetUses(tab, x, e, r);
      UsesFirst(LowerSet(tab, x, e).value, Need(e), r);
    case Store(addr, val) => StoreWrites(tab, addr, val, r);
    case If(cond, thn, els) =>
      ExprsUse(tab, cond.args, TMP_BASE, r) by { CondHasNoCall(cond); }
      var g := LowerAll(tab, cond.args, TMP_BASE);
      UsesFirst(g.code, NeedAll(cond.args), r);
      BlockWrites(fs, tab, thn, r);
      BlockWrites(fs, tab, els, r);
      IfWrites(g.code, NeedAll(cond.args), cond.op, g.regs[0], g.regs[1], LowerBlock(tab, els).value, BlockNeed(els),
               LowerBlock(tab, thn).value, BlockNeed(thn), r);
    case For(x, init, bound, body) =>
      var i, b := LowerSet(tab, x, init).value, LowerExpr(tab, bound, TMP_BASE);
      SetUses(tab, x, init, r);
      UsesFirst(i, Need(init), r);
      ExprUses(tab, bound, TMP_BASE, r);
      UsesFirst(b.code, Need(bound), r);
      BlockWrites(fs, tab, body, r);
      LoopWrites(i, Need(init), b.code, Need(bound), Lookup(tab, x), b.reg, LowerBlock(tab, body).value, BlockNeed(body), r) by { InRangeAt(tab, x); }
    case Return(None) => WritesNothing([Ret], r);
    case Return(Some(e)) =>
      var front := ReturnUses(tab, e, r);
      UsesFirst(front, Need(e), r);
      WritesNothing([Sret], r);
      WritesCat(front, Need(e), [Sret], 0, r);
  }

  lemma CondHasNoCall(cond: Expr)
    requires cond.Op? && !HasCall(cond)
    ensures !HasCallAny(cond.args)
  {
  }

  lemma InRangeAt(tab: seq<Binding>, x: string)
    requires InRange(tab)
    ensures Lookup(tab, x) < TMP_BASE
  {
  }

  lemma StoreWrites(tab: seq<Binding>, addr: Expr, val: Expr, r: int)
    requires InRange(tab) && ArithmeticAll(tab, [val, addr]) && !HasCall(addr) && !HasCall(val) && TMP_BASE <= r < TMP_ONE
    requires NeedAll([val, addr]) <= TEMPORARIES
    ensures LowerStmt(tab, Store(addr, val)).Some? && WritesFirst(LowerStmt(tab, Store(addr, val)).value, NeedAll([val, addr]), r)
  {
    hide InRange, Uses, WritesFirst, Arithmetic, NeedAll, HasCall, LowerStmt;
    var es := [val, addr];
    assert es[1..][0] == addr && ArithmeticAll(tab, es[1..]);
    StoreUses(tab, addr, val, r);
    UsesFirst(LowerStmt(tab, Store(addr, val)).value, NeedAll(es), r);
  }

  /** The temporaries that the code of a body without calls writes are exactly the first ones, as many as the body needs,
      whatever its branches and loops. */
  lemma {:induction false} BlockWrites(fs: seq<Func>, tab: seq<Binding>, b: Block, r: int)
    requires InRange(tab) && NamedBlock(fs, tab, b) && !BlockHasCall(b) && LowerBlock(tab, b).Some? && TMP_BASE <= r < TMP_ONE
    ensures WritesFirst(LowerBlock(tab, b).value, BlockNeed(b), r)
    decreases b, 0
  {
    hide InRange, WritesFirst, LowerStmt, StmtNeed, Named, StmtHasCall;
    if b.End? {
      WritesNothing([], r);
    } else {
      StmtWrites(fs, tab, b.head, r);
      BlockWrites(fs, tab, b.tail, r);
      WritesCat(LowerStmt(tab, b.head).value, StmtNeed(b.head), LowerBlock(tab, b.tail).value, BlockNeed(b.tail), r);
    }
  }

  lemma IfWrites(test: seq<Instr>, n: nat, op: Operator, a: int, b: int, els: seq<Instr>, ne: nat, thn: seq<Instr>, nt: nat, r: int)
    requires r >= TMP_BASE && WritesFirst(test, n, r) && WritesFirst(els, ne, r) && WritesFirst(thn, nt, r)
    ensures WritesFirst(IfCode(test, op, a, b, els, thn), Max(n, Max(nt, ne)), r)
  {
    hide WritesFirst, NzpForOp;
    var head, mid := [Cmp(a, b), Brnzp(NzpForOp(op), 2 + |els|)], [Brnzp(NZP_ALL, 2 + |thn|), Nop];
    WritesNothing(head, r);
    WritesNothing(mid, r);
    WritesNothing([Sync], r);
    WritesCat(test, n, head, 0, r);
    WritesCat(test + head, n, els, ne, r);
    WritesCat(test + head + els, Max(n, ne), mid, 0, r);
    WritesCat(test + head + els + mid, Max(n, ne), thn, nt, r);
    WritesCat(test + head + els + mid + thn, Max(Max(n, ne), nt), [Sync], 0, r);
  }

  lemma LoopWrites(init: seq<Instr>, i: nat, test: seq<Instr>, n: nat, v: int, b: int, body: seq<Instr>, k: nat, r: int)
    requires TMP_BASE <= r < TMP_ONE && v < TMP_BASE && WritesFirst(init, i, r) && WritesFirst(test, n, r) && WritesFirst(body, k, r)
    ensures WritesFirst(init + [Const(TMP_ONE, 1)] + LoopCode(test, v, b, body), Max(Max(i, n), k), r)
  {
    hide WritesFirst;
    var one, head := [Const(TMP_ONE, 1)], [Cmp(v, b), Brnzp(NZP_ZP, |body| + 3)];
    var last := [Alu(OP_ADD, v, v, TMP_ONE, 0), Brnzp(NZP_ALL, -(|test| + |body| + 3))];
    WritesNothing(one, r);
    WritesNothing(head, r);
    WritesNothing(last, r);
    WritesCat(init, i, one, 0, r);
    WritesCat(test, n, head, 0, r);
    WritesCat(test + head, n, body, k, r);
    WritesCat(test + head + body, Max(n, k), last, 0, r);
    WritesCat(init + one, i, test + head + body + last, Max(n, k), r);
    assert LoopCode(test, v, b, body) == test + head + body + last;
  }
}
