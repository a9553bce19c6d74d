/** The semantic checker as it runs: a symbol table updated in place, and an error flag. */
module Checker {
  import opened Words
  import opened Lang
  import opened Sema

  class KernelSyms {
    const vars: array<Binding>
    var varCount: nat
    var nextReg: int
    const maxReg: int
    const funcs: seq<Func>

    /** Registers are handed out one per variable, which keeps the count below the table size. */
    ghost predicate Valid()
      reads this, vars
    {
      vars.Length == TABLE_SIZE && nextReg - varCount >= 1 && nextReg <= maxReg + 1 <= MAX_VARS + 1
    }

    ghost function State(): Syms
      requires Valid()
      reads this, vars
    {
      Syms(vars[..varCount], nextReg, maxReg)
    }

    constructor (k: Syms, fs: seq<Func>)
      requires k.vars == [] && 1 <= k.next <= k.max + 1 <= MAX_VARS + 1
      ensures Valid() && fresh(vars) && State() == k && funcs == fs
    {
      vars := new Binding[TABLE_SIZE];
      varCount := 0;
      nextReg := k.next;
      maxReg := k.max;
      funcs := fs;
    }

    method SymsLookup(name: string) returns (r: int)
      requires Valid()
      ensures r == Lookup(State().vars, name)
    {
      for i := 0 to varCount
        invariant Lookup(vars[..varCount], name) == Lookup(vars[i..varCount], name)
      {
        if vars[i].name == name {
          return vars[i].reg;
        }
        assert vars[i..varCount][1..] == vars[i + 1..varCount];
      }
      return -1;
    }

    /** A rejected name leaves the table alone; an accepted one gets the next register. */
    method SymsAdd(name: string) returns (r: int)
      requires Valid()
      modifies this`varCount, this`nextReg, vars
      ensures Valid()
      ensures Add(old(State()), name).None? ==> r == -1 && State() == old(State())
      ensures Add(old(State()), name).Some? ==> r == old(nextReg) && State() == Add(old(State()), name).value
    {
      var bound := SymsLookup(name);
      if bound >= 0 {
        return -1;
      }
      if nextReg > maxReg {
        return -1;
      }
      vars[varCount] := Binding(name, nextReg);
      varCount := varCount + 1;
      nextReg := nextReg + 1;
      assert vars[..varCount - 1] == old(vars[..varCount]);
      return nextReg - 1;
    }

    method CheckExpr(e: Expr) returns (err: bool)
      requires Valid()
      ensures err <==> !ExprOk(funcs, State().vars, e)
      decreases e, 1
    {
      match e
      case Var(x) =>
        var r := SymsLookup(x);
        err := r < 0;
      case Op(_, args) => err := CheckExprs(args);
      case MemLoad(a) => err := CheckExpr(a);
      case CallF(f, args) =>
        var k := IndexOfFunc(funcs, f);
        if k == |funcs| || |args| != |funcs[k].params| {
          return true;
        }
        err := CheckExprs(args);
      case _ => err := false;
    }

    /** All operands are visited, also behind a faulty one. */
    method CheckExprs(es: seq<Expr>) returns (err: bool)
      requires Valid()
      ensures err <==> !ExprsOk(funcs, State().vars, es)
      decreases es, 0
    {
      err := false;
      for i := 0 to |es|
        invariant if err then !ExprsOk(funcs, State().vars, es)
                  else ExprsOk(funcs, State().vars, es) == ExprsOk(funcs, State().vars, es[i..])
      {
        var bad := CheckExpr(es[i]);
        err := err || bad;
        assert es[i..][1..] == es[i + 1..];
      }
    }

    method CheckIfCond(cond: Expr) returns (err: bool)
      requires Valid()
      ensures err <==> !CondOk(funcs, State().vars, cond)
    {
      if !cond.Op? || !IsComparison(cond.op) {
        return true;
      }
      err := CheckExprs(cond.args);
    }

    /** An accepted statement leaves the table its check computes; a rejected one leaves some valid table. */
    method CheckOne(s: Stmt, ifDepth: nat) returns (err: bool)
      requires Valid()
      modifies this`varCount, this`nextReg, vars
      ensures Valid()
      ensures err <==> CheckStmt(funcs, old(State()), s, ifDepth).None?
      ensures !err ==> State() == CheckStmt(funcs, old(State()), s, ifDepth).value
      decreases s, 1
    {
      match s
      case Decl(x, e) =>
        err := CheckExpr(e);
        if !err {
          var r := SymsAdd(x);
          err := r < 0;
        }
      case Assign(x, e) =>
        var r := SymsLookup(x);
        if r < 0 {
          return true;
        }
        err := CheckExpr(e);
      case Store(addr, val) =>
        var a := CheckExpr(addr);
        var v := CheckExpr(val);
        err := a || v;
      case If(cond, thn, els) =>
        if ifDepth >= 1 {
          return true;
        }
        err := CheckIfCond(cond);
        if !err {
          err := CheckList(thn, ifDepth + 1);
          if !err {
            err := CheckList(els, ifDepth + 1);
          }
        }
      case For(x, init, bound, body) =>
        err := CheckExpr(init);
        if err {
          return;
        }
        err := CheckExpr(bound);
        if err {
          return;
        }
        var r := SymsAdd(x);
        if r < 0 {
          return true;
        }
        err := CheckList(body, ifDepth);
      case Return(r) =>
        err := false;
        if r.Some? {
          err := CheckExpr(r.value);
        }
    }

    /** Checking goes on behind a rejected statement, but nothing can then be accepted any more. */
    method CheckList(list: Block, ifDepth: nat) returns (err: bool)
      requires Valid()
      modifies this`varCount, this`nextReg, vars
      ensures Valid()
      ensures err <==> CheckBlock(funcs, old(State()), list, ifDepth).None?
      ensures !err ==> State() == CheckBlock(funcs, old(State()), list, ifDepth).value
      decreases list, 0
    {
      err := false;
      var n := list;
      while n.Seq?
        invariant Valid()
        invariant n == list || n < list
        invariant if err then CheckBlock(funcs, old(State()), list, ifDepth).None?
                  else CheckBlock(funcs, old(State()), list, ifDepth) == CheckBlock(funcs, State(), n, ifDepth)
        decreases n
      {
        var bad := CheckOne(n.head, ifDepth);
        err := err || bad;
        n := n.tail;
      }
    }

    /** Parameters and then the body. */
    method CheckWhole(f: Func) returns (err: bool)
      requires Valid()
      modifies this`varCount, this`nextReg, vars
      ensures Valid()
      ensures err <==> CheckBody(funcs, old(State()), f).None?
      ensures !err ==> State() == CheckBody(funcs, old(State()), f).value
    {
      err := false;
      for i := 0 to |f.params|
        invariant Valid()
        invariant if err then AddAll(old(State()), f.params).None?
                  else AddAll(old(State()), f.params) == AddAll(State(), f.params[i..])
      {
        var r := SymsAdd(f.params[i]);
        err := err || r < 0;
        assert f.params[i..][1..] == f.params[i + 1..];
      }
      var bad := CheckList(f.body, 0);
      err := err || bad;
    }
  }

  method SemaCheck(p: Program) returns (err: bool, kernels: seq<seq<Binding>>, funcs: seq<seq<Binding>>)
    ensures err <==> Check(p).None?
    ensures !err ==> (kernels, funcs) == Check(p).value
  {
    hide BlockHasCall, EndsInValue, CheckBody;
    err, kernels, funcs := false, [], [];
    BehindNothing(CheckFuncs(p.funcs, p.funcs));
    BehindNothing(CheckKernels(p.funcs, p.kernels));
    for i := 0 to |p.funcs|
      invariant if err then CheckFuncs(p.funcs, p.funcs).None?
                else CheckFuncs(p.funcs, p.funcs) == Behind(funcs, CheckFuncs(p.funcs, p.funcs[i..]))
    {
      var k := new KernelSyms(FuncSyms(), p.funcs);
      var bad := k.CheckWhole(p.funcs[i]);
      if BlockHasCall(p.funcs[i].body) {
        bad := true;
      }
      if !EndsInValue(p.funcs[i].body) {
        bad := true;
      }
      assert p.funcs[i..][1..] == p.funcs[i + 1..];
      BehindOne(funcs, k.vars[..k.varCount], CheckFuncs(p.funcs, p.funcs[i + 1..]));
      err := err || bad;
      funcs := funcs + [k.vars[..k.varCount]];
    }
    assert funcs + [] == funcs;
    for i := 0 to |p.kernels|
      invariant if err then Check(p).None?
                else CheckFuncs(p.funcs, p.funcs) == Some(funcs)
                     && CheckKernels(p.funcs, p.kernels) == Behind(kernels, CheckKernels(p.funcs, p.kernels[i..]))
    {
      var k := new KernelSyms(KernelStart(p.funcs), p.funcs);
      var bad := k.CheckWhole(p.kernels[i]);
      assert p.kernels[i..][1..] == p.kernels[i + 1..];
      BehindOne(kernels, k.vars[..k.varCount], CheckKernels(p.funcs, p.kernels[i + 1..]));
      err := err || bad;
      kernels := kernels + [k.vars[..k.varCount]];
    }
    assert kernels + [] == kernels;
  }

  /** The tables already built, in front of those still to come. */
  function Behind(done: seq<seq<Binding>>, rest: Option<seq<seq<Binding>>>): Option<seq<seq<Binding>>> {
    if rest.None? then None else Some(done + rest.value)
  }

  lemma BehindNothing(rest: Option<seq<seq<Binding>>>)
    ensures Behind([], rest) == rest
  {
    if rest.Some? {
      assert [] + rest.value == rest.value;
    }
  }

  lemma BehindOne(done: seq<seq<Binding>>, tab: seq<Binding>, rest: Option<seq<seq<Binding>>>)
    ensures Behind(done, if rest.None? then None else Some([tab] + rest.value)) == Behind(done + [tab], rest)
  {
    if rest.Some? {
      assert done + ([tab] + rest.value) == (done + [tab]) + rest.value;
    }
  }
}
