/** What the checker accepts, read off the syntax alone: names, scopes, arities, windows and nesting, with no symbol table. */
module Acceptance {
  import opened Words
  import opened Lang
  import opened Sema

  // ----- conditions on the syntax -----

  /** The func that a name stands for, the first one declared, takes `n` arguments. */
  predicate Callable(fs: seq<Func>, name: string, n: nat) {
    exists k :: 0 <= k < |fs| && fs[k].name == name && (forall j :: 0 <= j < k ==> fs[j].name != name) && |fs[k].params| == n
  }

  /** All variables are among `names`, and calls fit a declared func. */
  predicate Known(fs: seq<Func>, names: seq<string>, e: Expr)
    decreases e, 1
  {
    match e
    case Var(x) => x in names
    case Op(_, args) => KnownAll(fs, names, args)
    case MemLoad(a) => Known(fs, names, a)
    case CallF(f, args) => Callable(fs, f, |args|) && KnownAll(fs, names, args)
    case _ => true
  }

  predicate KnownAll(fs: seq<Func>, names: seq<string>, es: seq<Expr>)
    decreases es, 0
  {
    es == [] || (Known(fs, names, es[0]) && KnownAll(fs, names, es[1..]))
  }

  /** The names a statement declares, in the order of the text; there are no inner scopes. */
  function Declared(s: Stmt): seq<string>
    decreases s, 1
  {
    match s
    case Decl(x, _) => [x]
    case If(_, thn, els) => DeclaredIn(thn) + DeclaredIn(els)
    case For(x, _, _, body) => [x] + DeclaredIn(body)
    case _ => []
  }

  function DeclaredIn(b: Block): seq<string>
    decreases b, 0
  {
    if b.End? then [] else Declared(b.head) + DeclaredIn(b.tail)
  }

  /** Names are used behind their declaration only, `names` being declared before; conditions are comparisons. */
  predicate InScope(fs: seq<Func>, names: seq<string>, s: Stmt)
    decreases s, 1
  {
    match s
    case Decl(_, e) => Known(fs, names, e)
    case Assign(x, e) => x in names && Known(fs, names, e)
    case Store(addr, val) => Known(fs, names, addr) && Known(fs, names, val)
    case If(cond, thn, els) =>
      && cond.Op? && (cond.op.Lt? || cond.op.Gt? || cond.op.Leq? || cond.op.Geq? || cond.op.EqEq? || cond.op.Neq?)
      && KnownAll(fs, names, cond.args) && BlockInScope(fs, names, thn) && BlockInScope(fs, names + DeclaredIn(thn), els)
    case For(x, init, bound, body) => Known(fs, names, init) && Known(fs, names, bound) && BlockInScope(fs, names + [x], body)
    case Return(r) => r.Some? ==> Known(fs, names, r.value)
  }

  predicate BlockInScope(fs: seq<Func>, names: seq<string>, b: Block)
    decreases b, 0
  {
    b.Seq? ==> InScope(fs, names, b.head) && BlockInScope(fs, names + Declared(b.head), b.tail)
  }

  /** No `if` at any depth. */
  predicate IfFree(s: Stmt)
    decreases s, 1
  {
    match s
    case If(_, _, _) => false
    case For(_, _, _, body) => BlockIfFree(body)
    case _ => true
  }

  predicate BlockIfFree(b: Block)
    decreases b, 0
  {
    b.Seq? ==> IfFree(b.head) && BlockIfFree(b.tail)
  }

  /** No `if` inside an arm of an `if`, directly or in a loop there. */
  predicate Unnested(s: Stmt)
    decreases s, 1
  {
    match s
    case If(_, thn, els) => BlockIfFree(thn) && BlockIfFree(els)
    case For(_, _, _, body) => BlockUnnested(body)
    case _ => true
  }

  predicate BlockUnnested(b: Block)
    decreases b, 0
  {
    b.Seq? ==> Unnested(b.head) && BlockUnnested(b.tail)
  }

  predicate CallFree(e: Expr)
    decreases e, 1
  {
    match e
    case Op(_, args) => CallFreeAll(args)
    case MemLoad(a) => CallFree(a)
    case CallF(_, _) => false
    case _ => true
  }

  predicate CallFreeAll(es: seq<Expr>)
    decreases es, 0
  {
    es == [] || (CallFree(es[0]) && CallFreeAll(es[1..]))
  }

  predicate StmtCallFree(s: Stmt)
    decreases s, 1
  {
    match s
    case Decl(_, e) => CallFree(e)
    case Assign(_, e) => CallFree(e)
    case Store(addr, val) => CallFree(addr) && CallFree(val)
    case If(cond, thn, els) => CallFree(cond) && BlockCallFree(thn) && BlockCallFree(els)
    case For(_, init, bound, body) => CallFree(init) && CallFree(bound) && BlockCallFree(body)
    case Return(r) => r.Some? ==> CallFree(r.value)
  }

  predicate BlockCallFree(b: Block)
    decreases b, 0
  {
    b.Seq? ==> StmtCallFree(b.head) && BlockCallFree(b.tail)
  }

  /** The statements of a block as a sequence. */
  function Stmts(b: Block): seq<Stmt> {
    if b.End? then [] else [b.head] + Stmts(b.tail)
  }

  predicate LastReturnsValue(b: Block) {
    var ss := Stmts(b);
    ss != [] && ss[|ss| - 1].Return? && ss[|ss| - 1].ret.Some?
  }

  predicate Distinct(xs: seq<string>) {
    forall i, j :: 0 <= i < j < |xs| ==> xs[i] != xs[j]
  }

  function AllNames(f: Func): seq<string> { f.params + DeclaredIn(f.body) }

  /** Parameters and declared names are all different and not more than the window holds, and the body is in order. */
  predicate BodyAcceptable(fs: seq<Func>, window: int, f: Func) {
    Distinct(AllNames(f)) && |AllNames(f)| <= window && BlockInScope(fs, f.params, f.body) && BlockUnnested(f.body)
  }

  predicate FuncAcceptable(fs: seq<Func>, f: Func) {
    BodyAcceptable(fs, 5, f) && BlockCallFree(f.body) && LastReturnsValue(f.body)
  }

  predicate KernelAcceptable(fs: seq<Func>, k: Func) {
    BodyAcceptable(fs, if fs == [] then 19 else 13, k)
  }

  predicate Acceptable(p: Program) {
    && (forall i :: 0 <= i < |p.kernels| ==> KernelAcceptable(p.funcs, p.kernels[i]))
    && (forall i :: 0 <= i < |p.funcs| ==> FuncAcceptable(p.funcs, p.funcs[i]))
  }

  /** The registers from `first` on, in the order of the names. */
  function Registers(names: seq<string>, first: int): (tab: seq<Binding>)
    ensures |tab| == |names| && forall i :: 0 <= i < |tab| ==> tab[i] == Binding(names[i], first + i)
  {
    seq(|names|, i requires 0 <= i < |names| => Binding(names[i], first + i))
  }

  // ----- the checker decides exactly this -----

  /** A table under construction in which `names` have the registers from `first` on. */
  ghost predicate Holds(k: Syms, names: seq<string>, first: int) {
    first > 0 && Distinct(names) && k.vars == Registers(names, first) && k.next == first + |names| <= k.max + 1
  }

  lemma HoldsNumbered(k: Syms, names: seq<string>, first: int)
    requires Holds(k, names, first)
    ensures Numbered(k, first)
  {
  }

  lemma LookupIn(k: Syms, names: seq<string>, first: int, x: string)
    requires Holds(k, names, first)
    ensures Lookup(k.vars, x) >= 0 <==> x in names
  {
    HoldsNumbered(k, names, first);
    LookupNumbered(k, first, x);
    if i :| 0 <= i < |names| && names[i] == x {
      assert k.vars[i].name == x;
    }
  }

  lemma {:induction false} FindsFirst(fs: seq<Func>, name: string)
    ensures forall j :: 0 <= j < FindFunc(fs, name) ==> fs[j].name != name
    decreases |fs|
  {
    if fs != [] {
      FindsFirst(fs[1..], name);
      forall j | 0 <= j < FindFunc(fs, name)
        ensures fs[j].name != name
      {
        if j > 0 {
          assert fs[j] == fs[1..][j - 1];
        }
      }
    }
  }

  lemma CallableIs(fs: seq<Func>, name: string, n: nat)
    ensures Callable(fs, name, n) <==> FindFunc(fs, name) < |fs| && |fs[FindFunc(fs, name)].params| == n
  {
    FindsFirst(fs, name);
    var i := FindFunc(fs, name);
    if k :| 0 <= k < |fs| && fs[k].name == name && (forall j :: 0 <= j < k ==> fs[j].name != name) && |fs[k].params| == n {
      assert k == i;
    }
  }

  lemma {:induction false} KnownIs(fs: seq<Func>, k: Syms, names: seq<string>, first: int, e: Expr)
    requires Holds(k, names, first)
    ensures ExprOk(fs, k.vars, e) <==> Known(fs, names, e)
    decreases e, 1
  {
    hide Holds, Callable, FindFunc;
    match e
    case Var(x) => LookupIn(k, names, first, x);
    case Op(_, args) => KnownAllIs(fs, k, names, first, args);
    case MemLoad(a) => KnownIs(fs, k, names, first, a);
    case CallF(f, args) =>
      CallableIs(fs, f, |args|);
      KnownAllIs(fs, k, names, first, args);
    case _ =>
  }

  lemma {:induction false} KnownAllIs(fs: seq<Func>, k: Syms, names: seq<string>, first: int, es: seq<Expr>)
    requires Holds(k, names, first)
    ensures ExprsOk(fs, k.vars, es) <==> KnownAll(fs, names, es)
    decreases es, 0
  {
    hide Holds;
    if es != [] {
      KnownIs(fs, k, names, first, es[0]);
      KnownAllIs(fs, k, names, first, es[1..]);
    }
  }

  /** Room for further names that are all new. */
  ghost predicate Fits(k: Syms, names: seq<string>, more: seq<string>, first: int) {
    Distinct(names + more) && |names + more| <= k.max + 1 - first
  }

  lemma AddIs(k: Syms, names: seq<string>, first: int, x: string)
    requires Holds(k, names, first)
    ensures Add(k, x).Some? <==> Fits(k, names, [x], first)
    ensures Add(k, x).Some? ==> Holds(Add(k, x).value, names + [x], first) && Add(k, x).value.max == k.max
  {
    LookupIn(k, names, first, x);
    if x !in names {
      assert Distinct(names + [x]);
    } else {
      var i :| 0 <= i < |names| && names[i] == x;
      assert (names + [x])[i] == (names + [x])[|names|];
    }
    if Add(k, x).Some? {
      assert Add(k, x).value.vars == Registers(names + [x], first);
    }
  }

  /** Names added in two steps. */
  lemma FitsTwice(k: Syms, k': Syms, names: seq<string>, a: seq<string>, b: seq<string>, first: int)
    requires k'.max == k.max
    ensures Fits(k, names, a + b, first) <==> Fits(k, names, a, first) && Fits(k', names + a, b, first)
  {
    assert names + (a + b) == names + a + b;
    if Distinct(names + a + b) {
      forall i, j | 0 <= i < j < |names + a|
        ensures (names + a)[i] != (names + a)[j]
      {
        assert (names + a + b)[i] == (names + a)[i] && (names + a + b)[j] == (names + a)[j];
      }
    }
  }

  lemma FitsNothing(k: Syms, names: seq<string>, first: int)
    requires Holds(k, names, first)
    ensures Fits(k, names, [], first) && names + [] == names
  {
    assert names + [] == names;
  }

  lemma {:induction false} AddAllIs(k: Syms, names: seq<string>, first: int, xs: seq<string>)
    requires Holds(k, names, first)
    ensures AddAll(k, xs).Some? <==> Fits(k, names, xs, first)
    ensures AddAll(k, xs).Some? ==> Holds(AddAll(k, xs).value, names + xs, first) && AddAll(k, xs).value.max == k.max
    decreases |xs|
  {
    hide Holds, Fits, Add;
    FitsNothing(k, names, first);
    if xs != [] {
      AddIs(k, names, first, xs[0]);
      assert [xs[0]] + xs[1..] == xs;
      FitsTwice(k, if Add(k, xs[0]).Some? then Add(k, xs[0]).value else k, names, [xs[0]], xs[1..], first);
      if Add(k, xs[0]).Some? {
        AddAllIs(Add(k, xs[0]).value, names + [xs[0]], first, xs[1..]);
        assert names + [xs[0]] + xs[1..] == names + xs;
      }
    }
  }

  predicate FlatEnough(s: Stmt, d: nat) { if d >= 1 then IfFree(s) else Unnested(s) }

  predicate BlockFlatEnough(b: Block, d: nat) { if d >= 1 then BlockIfFree(b) else BlockUnnested(b) }

  lemma {:induction false} StmtIs(fs: seq<Func>, k: Syms, names: seq<string>, first: int, s: Stmt, d: nat)
    requires Holds(k, names, first)
    ensures CheckStmt(fs, k, s, d).Some? <==> Fits(k, names, Declared(s), first) && InScope(fs, names, s) && FlatEnough(s, d)
    ensures CheckStmt(fs, k, s, d).Some? ==>
              Holds(CheckStmt(fs, k, s, d).value, names + Declared(s), first) && CheckStmt(fs, k, s, d).value.max == k.max
    decreases s, 1
  {
    hide Holds, Fits, Add, ExprOk, ExprsOk, Known, KnownAll, CheckBlock, BlockInScope, BlockIfFree, BlockUnnested, DeclaredIn, Lookup;
    FitsNothing(k, names, first);
    match s
    case Decl(x, e) =>
      KnownIs(fs, k, names, first, e);
      AddIs(k, names, first, x);
    case Assign(x, e) =>
      KnownIs(fs, k, names, first, e);
      LookupIn(k, names, first, x);
    case Store(addr, val) =>
      KnownIs(fs, k, names, first, addr);
      KnownIs(fs, k, names, first, val);
    case If(cond, thn, els) =>
      if cond.Op? { KnownAllIs(fs, k, names, first, cond.args); }
      ArmsAre(fs, k, names, first, s, d);
    case For(x, init, bound, body) =>
      KnownIs(fs, k, names, first, init);
      KnownIs(fs, k, names, first, bound);
      AddIs(k, names, first, x);
      var k1 := Add(k, x);
      FitsTwice(k, if k1.Some? then k1.value else k, names, [x], DeclaredIn(body), first);
      if k1.Some? {
        BlockIs(fs, k1.value, names + [x], first, body, d);
        assert names + [x] + DeclaredIn(body) == names + ([x] + DeclaredIn(body));
      }
      assert BlockFlatEnough(body, d) == FlatEnough(s, d);
    case Return(r) => if r.Some? { KnownIs(fs, k, names, first, r.value); }
  }

  /** The two arms of an `if`, one after the other, each a step deeper. */
  lemma {:induction false} ArmsAre(fs: seq<Func>, k: Syms, names: seq<string>, first: int, s: Stmt, d: nat)
    requires Holds(k, names, first) && s.If?
    ensures var thn, els := s.thn, s.els;
            var a := CheckBlock(fs, k, thn, d + 1);
            var b := if a.Some? then CheckBlock(fs, a.value, els, d + 1) else None;
            && (b.Some? <==>
                  && Fits(k, names, DeclaredIn(thn) + DeclaredIn(els), first)
                  && BlockInScope(fs, names, thn) && BlockInScope(fs, names + DeclaredIn(thn), els) && BlockIfFree(thn) && BlockIfFree(els))
            && (b.Some? ==> Holds(b.value, names + (DeclaredIn(thn) + DeclaredIn(els)), first) && b.value.max == k.max)
    decreases s, 0
  {
    hide Holds, Fits, CheckBlock, BlockInScope, BlockIfFree, BlockUnnested, DeclaredIn;
    var thn, els := s.thn, s.els;
    BlockIs(fs, k, names, first, thn, d + 1);
    var a := CheckBlock(fs, k, thn, d + 1);
    FitsTwice(k, if a.Some? then a.value else k, names, DeclaredIn(thn), DeclaredIn(els), first);
    if a.Some? {
      BlockIs(fs, a.value, names + DeclaredIn(thn), first, els, d + 1);
      assert names + DeclaredIn(thn) + DeclaredIn(els) == names + (DeclaredIn(thn) + DeclaredIn(els));
    }
  }

  lemma {:induction false} BlockIs(fs: seq<Func>, k: Syms, names: seq<string>, first: int, b: Block, d: nat)
    requires Holds(k, names, first)
    ensures CheckBlock(fs, k, b, d).Some? <==> Fits(k, names, DeclaredIn(b), first) && BlockInScope(fs, names, b) && BlockFlatEnough(b, d)
    ensures CheckBlock(fs, k, b, d).Some? ==>
              Holds(CheckBlock(fs, k, b, d).value, names + DeclaredIn(b), first) && CheckBlock(fs, k, b, d).value.max == k.max
    decreases b, 0
  {
    hide Holds, Fits, CheckStmt, InScope, IfFree, Unnested, Declared;
    FitsNothing(k, names, first);
    if b.Seq? {
      StmtIs(fs, k, names, first, b.head, d);
      var k1 := CheckStmt(fs, k, b.head, d);
      FitsTwice(k, if k1.Some? then k1.value else k, names, Declared(b.head), DeclaredIn(b.tail), first);
      if k1.Some? {
        BlockIs(fs, k1.value, names + Declared(b.head), first, b.tail, d);
        assert names + Declared(b.head) + DeclaredIn(b.tail) == names + (Declared(b.head) + DeclaredIn(b.tail));
      }
    }
  }

  // ----- bodies and programs -----

  lemma StartHolds(first: int, max: int)
    requires 0 < first <= max + 1
    ensures Holds(Syms([], first, max), [], first)
  {
  }

  lemma BodyIs(fs: seq<Func>, f: Func, first: int, max: int)
    requires 0 < first <= max + 1
    ensures var k := CheckBody(fs, Syms([], first, max), f);
            && (k.Some? <==> BodyAcceptable(fs, max + 1 - first, f))
            && (k.Some? ==> k.value.vars == Registers(AllNames(f), first))
  {
    hide CheckBlock, BlockInScope, BlockUnnested, DeclaredIn, AddAll;
    var start := Syms([], first, max);
    StartHolds(first, max);
    AddAllIs(start, [], first, f.params);
    assert [] + f.params == f.params;
    var k1 := AddAll(start, f.params);
    FitsTwice(start, if k1.Some? then k1.value else start, [], f.params, DeclaredIn(f.body), first);
    assert [] + AllNames(f) == AllNames(f);
    if k1.Some? {
      BlockIs(fs, k1.value, f.params, first, f.body, 0);
    }
  }

  lemma {:induction false} CallFreeIs(e: Expr)
    ensures CallFree(e) <==> !HasCall(e)
    decreases e, 1
  {
    match e
    case Op(_, args) => CallFreeAllIs(args);
    case MemLoad(a) => CallFreeIs(a);
    case _ =>
  }

  lemma {:induction false} CallFreeAllIs(es: seq<Expr>)
    ensures CallFreeAll(es) <==> !HasCallAny(es)
    decreases es, 0
  {
    if es != [] {
      CallFreeIs(es[0]);
      CallFreeAllIs(es[1..]);
    }
  }

  lemma {:induction false} StmtCallFreeIs(s: Stmt)
    ensures StmtCallFree(s) <==> !StmtHasCall(s)
    decreases s, 1
  {
    hide CallFree, HasCall;
    match s
    case Decl(_, e) => CallFreeIs(e);
    case Assign(_, e) => CallFreeIs(e);
    case Store(addr, val) => CallFreeIs(addr); CallFreeIs(val);
    case If(cond, thn, els) => CallFreeIs(cond); BlockCallFreeIs(thn); BlockCallFreeIs(els);
    case For(_, init, bound, body) => CallFreeIs(init); CallFreeIs(bound); BlockCallFreeIs(body);
    case Return(r) => if r.Some? { CallFreeIs(r.value); }
  }

  lemma {:induction false} BlockCallFreeIs(b: Block)
    ensures BlockCallFree(b) <==> !BlockHasCall(b)
    decreases b, 0
  {
    if b.Seq? {
      StmtCallFreeIs(b.head);
      BlockCallFreeIs(b.tail);
    }
  }

  lemma {:induction false} LastIs(b: Block)
    ensures LastReturnsValue(b) <==> EndsInValue(b)
    decreases b
  {
    if b.Seq? {
      LastIs(b.tail);
      var ss, rest := Stmts(b), Stmts(b.tail);
      if b.tail.Seq? {
        assert rest != [] && ss[|ss| - 1] == rest[|rest| - 1];
      }
    }
  }

  lemma FuncIs(fs: seq<Func>, f: Func)
    ensures CheckFunc(fs, f).Some? <==> FuncAcceptable(fs, f)
    ensures CheckFunc(fs, f).Some? ==> CheckFunc(fs, f).value.vars == Registers(AllNames(f), 14)
  {
    hide BodyAcceptable, CheckBody, BlockCallFree, BlockHasCall, LastReturnsValue, EndsInValue;
    BodyIs(fs, f, 14, 18);
    BlockCallFreeIs(f.body);
    LastIs(f.body);
  }

  lemma KernelIs(fs: seq<Func>, k: Func)
    ensures CheckBody(fs, KernelStart(fs), k).Some? <==> KernelAcceptable(fs, k)
    ensures CheckBody(fs, KernelStart(fs), k).Some? ==> CheckBody(fs, KernelStart(fs), k).value.vars == Registers(AllNames(k), 1)
  {
    hide BodyAcceptable, CheckBody;
    BodyIs(fs, k, 1, if fs == [] then 19 else 13);
  }

  lemma {:induction false} FuncsAre(all: seq<Func>, fs: seq<Func>)
    ensures CheckFuncs(all, fs).Some? <==> forall i :: 0 <= i < |fs| ==> FuncAcceptable(all, fs[i])
    ensures CheckFuncs(all, fs).Some? ==> forall i :: 0 <= i < |fs| ==> CheckFuncs(all, fs).value[i] == Registers(AllNames(fs[i]), 14)
    decreases |fs|
  {
    hide FuncAcceptable, CheckFunc;
    if fs != [] {
      FuncIs(all, fs[0]);
      FuncsAre(all, fs[1..]);
      assert forall i :: 1 <= i < |fs| ==> fs[i] == fs[1..][i - 1];
      assert forall i :: 0 <= i < |fs[1..]| ==> fs[1..][i] == fs[i + 1];
    }
  }

  lemma {:induction false} KernelsAre(all: seq<Func>, ks: seq<Func>)
    ensures CheckKernels(all, ks).Some? <==> forall i :: 0 <= i < |ks| ==> KernelAcceptable(all, ks[i])
    ensures CheckKernels(all, ks).Some? ==> forall i :: 0 <= i < |ks| ==> CheckKernels(all, ks).value[i] == Registers(AllNames(ks[i]), 1)
    decreases |ks|
  {
    hide KernelAcceptable, CheckBody;
    if ks != [] {
      KernelIs(all, ks[0]);
      KernelsAre(all, ks[1..]);
      assert forall i :: 1 <= i < |ks| ==> ks[i] == ks[1..][i - 1];
      assert forall i :: 0 <= i < |ks[1..]| ==> ks[1..][i] == ks[i + 1];
    }
  }

  /** A program is accepted just if its syntax is in order: names different, declared before use and as many as their window
      holds, calls of declared funcs with their number of arguments, comparisons as conditions, no `if` in an arm of an `if`,
      and for funcs no call and a value returned at the end. The tables number the names in the order of the text. */
  lemma AcceptedExactly(p: Program)
    ensures Check(p).Some? <==> Acceptable(p)
    ensures Check(p).Some? ==>
              && (forall i :: 0 <= i < |p.kernels| ==> Check(p).value.0[i] == Registers(AllNames(p.kernels[i]), 1))
              && (forall i :: 0 <= i < |p.funcs| ==> Check(p).value.1[i] == Registers(AllNames(p.funcs[i]), 14))
  {
    hide FuncAcceptable, KernelAcceptable, CheckFuncs, CheckKernels;
    FuncsAre(p.funcs, p.funcs);
    KernelsAre(p.funcs, p.kernels);
  }
}
