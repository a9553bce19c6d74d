/** Semantic checking: names, registers, call arity, and the shape of bodies. */
module Sema {
  import opened Words
  import opened Lang

  const MAX_VARS := 19
  const TMP_BASE := 20
  const TMP_ONE := 28
  const FUNC_REG_BASE := 14
  const FUNC_MAX_VARS := 5
  const FUNC_REG_RET := 19
  const KERNEL_MAX_VARS_WITH_FUNCS := 13
  const TABLE_SIZE := 29

  datatype Binding = Binding(name: string, reg: int)

  /** The register of the first binding of `x`, or -1. */
  function Lookup(tab: seq<Binding>, x: string): int {
    if tab == [] then -1 else if tab[0].name == x then tab[0].reg else Lookup(tab[1..], x)
  }

  // ----- calls in a piece of syntax -----

  predicate HasCall(e: Expr)
    decreases e, 1
  {
    match e
    case Op(_, args) => HasCallAny(args)
    case MemLoad(a) => HasCall(a)
    case CallF(_, _) => true
    case _ => false
  }

  predicate HasCallAny(es: seq<Expr>)
    decreases es, 0
  {
    es != [] && (HasCall(es[0]) || HasCallAny(es[1..]))
  }

  predicate StmtHasCall(s: Stmt)
    decreases s, 1
  {
    match s
    case Decl(_, e) => HasCall(e)
    case Assign(_, e) => HasCall(e)
    case Store(addr, val) => HasCall(addr) || HasCall(val)
    case If(cond, thn, els) => HasCall(cond) || BlockHasCall(thn) || BlockHasCall(els)
    case For(_, init, bound, body) => HasCall(init) || HasCall(bound) || BlockHasCall(body)
    case Return(r) => r.Some? && HasCall(r.value)
  }

  predicate BlockHasCall(b: Block)
    decreases b, 0
  {
    b.Seq? && (StmtHasCall(b.head) || BlockHasCall(b.tail))
  }

  // ----- what is accepted, as functions -----

  /** A symbol table under construction: its bindings, the next register and the highest it may hand out. */
  datatype Syms = Syms(vars: seq<Binding>, next: int, max: int)

  function Add(k: Syms, x: string): Option<Syms> {
    if Lookup(k.vars, x) >= 0 || k.next > k.max then None
    else Some(Syms(k.vars + [Binding(x, k.next)], k.next + 1, k.max))
  }

  function AddAll(k: Syms, xs: seq<string>): Option<Syms>
    decreases |xs|
  {
    if xs == [] then Some(k)
    else match Add(k, xs[0]) case None => None case Some(k') => AddAll(k', xs[1..])
  }

  /** Every variable is declared and every call names a func and has its number of arguments. */
  predicate ExprOk(fs: seq<Func>, tab: seq<Binding>, e: Expr)
    decreases e, 1
  {
    match e
    case Var(x) => Lookup(tab, x) >= 0
    case Op(_, args) => ExprsOk(fs, tab, args)
    case MemLoad(a) => ExprOk(fs, tab, a)
    case CallF(f, args) =>
      var k := FindFunc(fs, f);
      k < |fs| && |args| == |fs[k].params| && ExprsOk(fs, tab, args)
    case _ => true
  }

  predicate ExprsOk(fs: seq<Func>, tab: seq<Binding>, es: seq<Expr>)
    decreases es, 0
  {
    es == [] || (ExprOk(fs, tab, es[0]) && ExprsOk(fs, tab, es[1..]))
  }

  predicate CondOk(fs: seq<Func>, tab: seq<Binding>, e: Expr) {
    e.Op? && IsComparison(e.op) && ExprsOk(fs, tab, e.args)
  }

  /** The table after a statement at `if` depth `d`, or None where the statement is rejected. */
  function CheckStmt(fs: seq<Func>, k: Syms, s: Stmt, d: nat): Option<Syms>
    decreases s, 1
  {
    match s
    case Decl(x, e) => if ExprOk(fs, k.vars, e) then Add(k, x) else None
    case Assign(x, e) => if Lookup(k.vars, x) >= 0 && ExprOk(fs, k.vars, e) then Some(k) else None
    case Store(addr, val) => if ExprOk(fs, k.vars, addr) && ExprOk(fs, k.vars, val) then Some(k) else None
    case If(cond, thn, els) =>
      if d >= 1 || !CondOk(fs, k.vars, cond) then None
      else (match CheckBlock(fs, k, thn, d + 1)
            case None => None
            case Some(k') => CheckBlock(fs, k', els, d + 1))
    case For(x, init, bound, body) =>
      if !(ExprOk(fs, k.vars, init) && ExprOk(fs, k.vars, bound)) then None
      else (match Add(k, x)
            case None => None
            case Some(k') => CheckBlock(fs, k', body, d))
    case Return(r) => if r.Some? && !ExprOk(fs, k.vars, r.value) then None else Some(k)
  }

  function CheckBlock(fs: seq<Func>, k: Syms, b: Block, d: nat): Option<Syms>
    decreases b, 0
  {
    match b
    case End => Some(k)
    case Seq(s, rest) => match CheckStmt(fs, k, s, d) case None => None case Some(k') => CheckBlock(fs, k', rest, d)
  }

  /** Parameters first, then the body. */
  function CheckBody(fs: seq<Func>, k: Syms, f: Func): Option<Syms> {
    match AddAll(k, f.params) case None => None case Some(k') => CheckBlock(fs, k', f.body, 0)
  }

  predicate EndsInValue(b: Block) {
    b.Seq? && if b.tail.End? then b.head.Return? && b.head.ret.Some? else EndsInValue(b.tail)
  }

  function FuncSyms(): Syms { Syms([], FUNC_REG_BASE, FUNC_REG_BASE + FUNC_MAX_VARS - 1) }

  function KernelStart(fs: seq<Func>): Syms { Syms([], 1, if fs == [] then MAX_VARS else KERNEL_MAX_VARS_WITH_FUNCS) }

  function CheckFunc(fs: seq<Func>, f: Func): Option<Syms> {
    if BlockHasCall(f.body) || !EndsInValue(f.body) then None else CheckBody(fs, FuncSyms(), f)
  }

  function CheckFuncs(all: seq<Func>, fs: seq<Func>): (r: Option<seq<seq<Binding>>>)
    ensures r.Some? ==> |r.value| == |fs|
  {
    if fs == [] then Some([])
    else
      var k, rest := CheckFunc(all, fs[0]), CheckFuncs(all, fs[1..]);
      if k.None? || rest.None? then None else Some([k.value.vars] + rest.value)
  }

  function CheckKernels(all: seq<Func>, ks: seq<Func>): (r: Option<seq<seq<Binding>>>)
    ensures r.Some? ==> |r.value| == |ks|
  {
    if ks == [] then Some([])
    else
      var k, rest := CheckBody(all, KernelStart(all), ks[0]), CheckKernels(all, ks[1..]);
      if k.None? || rest.None? then None else Some([k.value.vars] + rest.value)
  }

  /** The tables of all kernels and of all funcs, or None where the program is rejected. */
  function Check(p: Program): (r: Option<(seq<seq<Binding>>, seq<seq<Binding>>)>)
    ensures r.Some? ==> |r.value.0| == |p.kernels| && |r.value.1| == |p.funcs|
  {
    var f, k := CheckFuncs(p.funcs, p.funcs), CheckKernels(p.funcs, p.kernels);
    if f.None? || k.None? then None else Some((k.value, f.value))
  }

  // ----- what acceptance guarantees -----

  /** Bindings number the registers from `first` on, and no name is bound twice. */
  ghost predicate Numbered(k: Syms, first: int) {
    && first <= k.next == first + |k.vars| <= k.max + 1
    && (forall i :: 0 <= i < |k.vars| ==> k.vars[i].reg == first + i)
    && (forall i, j :: 0 <= i < j < |k.vars| ==> k.vars[i].name != k.vars[j].name)
  }

  /** Looking a name up finds its position, or -1 if there is none. */
  lemma {:induction false} LookupAt(tab: seq<Binding>, x: string, i: nat)
    requires i < |tab| && tab[i].name == x && forall j :: 0 <= j < i ==> tab[j].name != x
    ensures Lookup(tab, x) == tab[i].reg
  {
    if i > 0 {
      LookupAt(tab[1..], x, i - 1);
    }
  }

  lemma {:induction false} LookupNone(tab: seq<Binding>, x: string)
    requires forall j :: 0 <= j < |tab| ==> tab[j].name != x
    ensures Lookup(tab, x) == -1
  {
    if tab != [] {
      LookupNone(tab[1..], x);
    }
  }

  /** In a numbered table, exactly the bound names have registers, and different names different ones. */
  lemma LookupNumbered(k: Syms, first: int, x: string)
    requires Numbered(k, first) && first > 0
    ensures Lookup(k.vars, x) == -1 || first <= Lookup(k.vars, x) < k.next
    ensures Lookup(k.vars, x) >= 0 ==> k.vars[Lookup(k.vars, x) - first].name == x
    ensures Lookup(k.vars, x) == -1 ==> forall j :: 0 <= j < |k.vars| ==> k.vars[j].name != x
  {
    if j :| 0 <= j < |k.vars| && k.vars[j].name == x {
      LookupAt(k.vars, x, j);
    } else {
      LookupNone(k.vars, x);
    }
  }

  /** A name bound in a prefix is found there. */
  lemma {:induction false} LookupPrefix(tab: seq<Binding>, more: seq<Binding>, x: string)
    requires Lookup(tab, x) >= 0
    ensures Lookup(tab + more, x) == Lookup(tab, x)
  {
    assert tab != [];
    assert (tab + more)[1..] == tab[1..] + more;
    if tab[0].name != x {
      LookupPrefix(tab[1..], more, x);
    }
  }

  /** What checking may do to a table: bind further names. */
  ghost predicate Grown(k: Syms, k': Syms) {
    k.vars <= k'.vars && k'.max == k.max && forall x :: Lookup(k.vars, x) >= 0 ==> Lookup(k'.vars, x) == Lookup(k.vars, x)
  }

  lemma AddKeeps(k: Syms, x: string, first: int)
    requires Numbered(k, first) && first > 0 && Add(k, x).Some?
    ensures Numbered(Add(k, x).value, first) && Grown(k, Add(k, x).value)
    ensures Lookup(Add(k, x).value.vars, x) == k.next
  {
    var k' := Add(k, x).value;
    LookupNumbered(k, first, x);
    LookupAt(k'.vars, x, |k.vars|);
    forall y | Lookup(k.vars, y) >= 0
      ensures Lookup(k'.vars, y) == Lookup(k.vars, y)
    {
      LookupPrefix(k.vars, [Binding(x, k.next)], y);
    }
  }

  /** Parameters take consecutive registers in their order. */
  lemma {:induction false} AddAllKeeps(k: Syms, xs: seq<string>, first: int)
    requires Numbered(k, first) && first > 0 && AddAll(k, xs).Some?
    ensures var k' := AddAll(k, xs).value;
            && Numbered(k', first) && Grown(k, k') && k'.next == k.next + |xs|
            && forall i :: 0 <= i < |xs| ==> Lookup(k'.vars, xs[i]) == k.next + i
    decreases |xs|
  {
    if xs != [] {
      AddKeeps(k, xs[0], first);
      var k1, k' := Add(k, xs[0]).value, AddAll(k, xs).value;
      AddAllKeeps(k1, xs[1..], first);
      forall i | 0 <= i < |xs|
        ensures Lookup(k'.vars, xs[i]) == k.next + i
      {
        if i > 0 {
          assert xs[i] == xs[1..][i - 1];
        }
      }
    }
  }

  /** Every name a statement assigns has a register, and every expression is accepted, in the final table. */
  predicate Named(fs: seq<Func>, tab: seq<Binding>, s: Stmt)
    decreases s, 1
  {
    match s
    case Decl(x, e) => Lookup(tab, x) > 0 && ExprOk(fs, tab, e)
    case Assign(x, e) => Lookup(tab, x) > 0 && ExprOk(fs, tab, e)
    case Store(addr, val) => ExprOk(fs, tab, addr) && ExprOk(fs, tab, val)
    case If(cond, thn, els) => CondOk(fs, tab, cond) && NamedBlock(fs, tab, thn) && NamedBlock(fs, tab, els)
    case For(x, init, bound, body) =>
      Lookup(tab, x) > 0 && ExprOk(fs, tab, init) && ExprOk(fs, tab, bound) && NamedBlock(fs, tab, body)
    case Return(r) => r.Some? ==> ExprOk(fs, tab, r.value)
  }

  predicate NamedBlock(fs: seq<Func>, tab: seq<Binding>, b: Block)
    decreases b, 0
  {
    b.Seq? ==> Named(fs, tab, b.head) && NamedBlock(fs, tab, b.tail)
  }

  lemma {:induction false} ExprGrown(fs: seq<Func>, k: Syms, k': Syms, e: Expr)
    requires Grown(k, k') && ExprOk(fs, k.vars, e)
    ensures ExprOk(fs, k'.vars, e)
    decreases e, 1
  {
    hide FindFunc;
    match e
    case Op(_, args) => ExprsGrown(fs, k, k', args);
    case MemLoad(a) => ExprGrown(fs, k, k', a);
    case CallF(_, args) => ExprsGrown(fs, k, k', args);
    case _ =>
  }

  lemma {:induction false} ExprsGrown(fs: seq<Func>, k: Syms, k': Syms, es: seq<Expr>)
    requires Grown(k, k') && ExprsOk(fs, k.vars, es)
    ensures ExprsOk(fs, k'.vars, es)
    decreases es, 0
  {
    if es != [] {
      ExprGrown(fs, k, k', es[0]);
      ExprsGrown(fs, k, k', es[1..]);
    }
  }

  lemma {:induction false} NamedGrown(fs: seq<Func>, k: Syms, k': Syms, s: Stmt)
    requires Grown(k, k') && Named(fs, k.vars, s)
    ensures Named(fs, k'.vars, s)
    decreases s, 1
  {
    hide ExprOk;
    match s
    case Decl(_, e) => ExprGrown(fs, k, k', e);
    case Assign(_, e) => ExprGrown(fs, k, k', e);
    case Store(addr, val) => ExprGrown(fs, k, k', addr); ExprGrown(fs, k, k', val);
    case If(cond, thn, els) =>
      ExprsGrown(fs, k, k', cond.args);
      NamedBlockGrown(fs, k, k', thn);
      NamedBlockGrown(fs, k, k', els);
    case For(_, init, bound, body) =>
      ExprGrown(fs, k, k', init);
      ExprGrown(fs, k, k', bound);
      NamedBlockGrown(fs, k, k', body);
    case Return(r) => if r.Some? { ExprGrown(fs, k, k', r.value); }
  }

  lemma {:induction false} NamedBlockGrown(fs: seq<Func>, k: Syms, k': Syms, b: Block)
    requires Grown(k, k') && NamedBlock(fs, k.vars, b)
    ensures NamedBlock(fs, k'.vars, b)
    decreases b, 0
  {
    if b.Seq? {
      NamedGrown(fs, k, k', b.head);
      NamedBlockGrown(fs, k, k', b.tail);
    }
  }

  lemma GrownTrans(k: Syms, k1: Syms, k2: Syms)
    requires Grown(k, k1) && Grown(k1, k2)
    ensures Grown(k, k2)
  {
  }

  /** An accepted statement keeps the table numbered, only adds names, and leaves every name it uses bound. */
  lemma {:induction false} CheckStmtKeeps(fs: seq<Func>, k: Syms, s: Stmt, d: nat, first: int)
    requires Numbered(k, first) && first > 0 && CheckStmt(fs, k, s, d).Some?
    ensures var k' := CheckStmt(fs, k, s, d).value; Numbered(k', first) && Grown(k, k') && Named(fs, k'.vars, s)
    decreases s, 1
  {
    hide Numbered, Grown, ExprOk, ExprsOk, Lookup, Add;
    GrownRefl(k);
    match s
    case Decl(x, e) =>
      AddKeeps(k, x, first);
      ExprGrown(fs, k, Add(k, x).value, e);
      NextPositive(k, first);
    case Assign(x, e) => LookupPositive(k, first, x);
    case If(cond, thn, els) =>
      CheckBlockKeeps(fs, k, thn, d + 1, first);
      var k1 := CheckBlock(fs, k, thn, d + 1).value;
      CheckBlockKeeps(fs, k1, els, d + 1, first);
      var k2 := CheckBlock(fs, k1, els, d + 1).value;
      GrownTrans(k, k1, k2);
      ExprsGrown(fs, k, k2, cond.args);
      NamedBlockGrown(fs, k1, k2, thn);
    case For(x, init, bound, body) =>
      AddKeeps(k, x, first);
      var k1 := Add(k, x).value;
      CheckBlockKeeps(fs, k1, body, d, first);
      var k2 := CheckBlock(fs, k1, body, d).value;
      GrownTrans(k, k1, k2);
      ExprGrown(fs, k, k2, init);
      ExprGrown(fs, k, k2, bound);
      NextPositive(k, first);
      GrownLookup(k1, k2, x);
    case _ =>
  }

  lemma GrownRefl(k: Syms)
    ensures Grown(k, k)
  {
  }

  lemma NextPositive(k: Syms, first: int)
    requires Numbered(k, first) && first > 0
    ensures k.next > 0
  {
  }

  lemma GrownLookup(k: Syms, k': Syms, x: string)
    requires Grown(k, k') && Lookup(k.vars, x) >= 0
    ensures Lookup(k'.vars, x) == Lookup(k.vars, x)
  {
  }

  lemma LookupPositive(k: Syms, first: int, x: string)
    requires Numbered(k, first) && first > 0 && Lookup(k.vars, x) >= 0
    ensures Lookup(k.vars, x) > 0
  {
    LookupNumbered(k, first, x);
  }

  lemma {:induction false} CheckBlockKeeps(fs: seq<Func>, k: Syms, b: Block, d: nat, first: int)
    requires Numbered(k, first) && first > 0 && CheckBlock(fs, k, b, d).Some?
    ensures var k' := CheckBlock(fs, k, b, d).value; Numbered(k', first) && Grown(k, k') && NamedBlock(fs, k'.vars, b)
    decreases b, 0
  {
    hide Numbered, Grown, CheckStmt, Named;
    GrownRefl(k);
    if b.Seq? {
      CheckStmtKeeps(fs, k, b.head, d, first);
      var k1 := CheckStmt(fs, k, b.head, d).value;
      CheckBlockKeeps(fs, k1, b.tail, d, first);
      var k2 := CheckBlock(fs, k1, b.tail, d).value;
      GrownTrans(k, k1, k2);
      NamedGrown(fs, k1, k2, b.head);
    }
  }

  /** An accepted body: consecutive registers from `first` up to the limit, one for each name,
      the parameters first, and every name the body uses bound. */
  lemma CheckBodyKeeps(fs: seq<Func>, k: Syms, f: Func, first: int)
    requires Numbered(k, first) && first > 0 && k.vars == [] && CheckBody(fs, k, f).Some?
    ensures var k' := CheckBody(fs, k, f).value;
            && Numbered(k', first) && k'.max == k.max && NamedBlock(fs, k'.vars, f.body)
            && |f.params| <= k.max + 1 - first
            && forall i :: 0 <= i < |f.params| ==> Lookup(k'.vars, f.params[i]) == first + i
  {
    AddAllKeeps(k, f.params, first);
    var k1 := AddAll(k, f.params).value;
    CheckBlockKeeps(fs, k1, f.body, 0, first);
  }

  /** The tables of the funcs, each from its own body. */
  lemma {:induction false} CheckFuncsEach(all: seq<Func>, fs: seq<Func>, i: nat)
    requires CheckFuncs(all, fs).Some? && i < |fs|
    ensures CheckFunc(all, fs[i]).Some? && CheckFuncs(all, fs).value[i] == CheckFunc(all, fs[i]).value.vars
    decreases |fs|
  {
    hide CheckFunc;
    if i > 0 {
      CheckFuncsEach(all, fs[1..], i - 1);
    }
  }

  lemma {:induction false} CheckKernelsEach(all: seq<Func>, ks: seq<Func>, i: nat)
    requires CheckKernels(all, ks).Some? && i < |ks|
    ensures CheckBody(all, KernelStart(all), ks[i]).Some?
    ensures CheckKernels(all, ks).value[i] == CheckBody(all, KernelStart(all), ks[i]).value.vars
    decreases |ks|
  {
    hide CheckBody;
    if i > 0 {
      CheckKernelsEach(all, ks[1..], i - 1);
    }
  }
}
