/** Programs that never get stuck: every name is set on every path before it is read, and every operator is one that has a
    value for all operands. */
module Progress {
  import opened Words
  import opened Isa
  import opened Lang
  import opened Sema
  import opened Lowering
  import opened Preservation
  import opened Correctness

  // ----- what a program must keep to -----

  /** Operators defined on all operands: no division, and shifts by a literal amount from 0 to 31 only. */
  predicate Total(op: Operator, args: seq<Expr>)
    requires |args| == Arity(op)
  {
    !IsComparison(op) && op !in {Slash, Percent} && (op in {Sar, Shl} ==> args[1].Lit? && 0 <= args[1].v <= 31)
  }

  /** An expression that reads only names in `known`. */
  predicate Defined(depth: nat, fs: seq<Func>, e: Expr, known: set<string>)
    decreases e
  {
    match e
    case Var(x) => x in known
    case Op(op, args) => |args| == Arity(op) && Total(op, args) && forall a <- args :: Defined(depth, fs, a, known)
    case MemLoad(a) => Defined(depth, fs, a, known)
    case CallF(f, args) =>
      && depth > 0 && FindFunc(fs, f) < |fs| && |args| == |fs[FindFunc(fs, f)].params|
      && forall a <- args :: Defined(depth, fs, a, known)
    case _ => true
  }

  /** The names surely set behind a statement that is run to its end. */
  function SetBy(s: Stmt, known: set<string>): set<string>
    decreases s, 1
  {
    match s
    case Decl(x, _) => known + {x}
    case Assign(x, _) => known + {x}
    case If(_, thn, els) => SetByAll(thn, known) * SetByAll(els, known)
    case For(x, _, _, _) => known + {x}
    case _ => known
  }

  function SetByAll(b: Block, known: set<string>): set<string>
    decreases b, 0
  {
    match b
    case End => known
    case Seq(s, rest) => SetByAll(rest, SetBy(s, known))
  }

  predicate DefinedStmt(depth: nat, fs: seq<Func>, s: Stmt, known: set<string>)
    decreases s, 1
  {
    match s
    case Decl(_, e) => Defined(depth, fs, e, known)
    case Assign(_, e) => Defined(depth, fs, e, known)
    case Store(a, v) => Defined(depth, fs, a, known) && Defined(depth, fs, v, known)
    case If(cond, thn, els) =>
      && cond.Op? && |cond.args| == 2 && (forall a <- cond.args :: Defined(depth, fs, a, known))
      && DefinedBlock(depth, fs, thn, known) && DefinedBlock(depth, fs, els, known)
    case For(x, init, bound, body) =>
      Defined(depth, fs, init, known) && Defined(depth, fs, bound, known + {x}) && DefinedBlock(depth, fs, body, known + {x})
    case Return(None) => depth > 0
    case Return(Some(e)) => Defined(depth, fs, e, known)
  }

  predicate DefinedBlock(depth: nat, fs: seq<Func>, b: Block, known: set<string>)
    decreases b, 0
  {
    match b
    case End => true
    case Seq(s, rest) => DefinedStmt(depth, fs, s, known) && DefinedBlock(depth, fs, rest, SetBy(s, known))
  }

  predicate DefinedFunc(fs: seq<Func>, f: Func) {
    DefinedBlock(0, fs, f.body, set x | x in f.params) && EndsInValue(f.body)
  }

  predicate DefinedProgram(p: Program) {
    && p.kernels != [] && DefinedBlock(1, p.funcs, p.kernels[0].body, set x | x in p.kernels[0].params)
    && forall f <- p.funcs :: DefinedFunc(p.funcs, f)
  }

  // ----- it is enough -----

  predicate DefinedFuncs(depth: nat, fs: seq<Func>) {
    depth <= 1 && (depth == 1 ==> forall f <- fs :: DefinedFunc(fs, f))
  }

  /** Not stuck; a statement that is run to its end has set what it says, and a func returns a value. */
  predicate Unstuck(depth: nat, r: Outcome, known: set<string>) {
    !r.Stuck? && (r.Normal? ==> known <= r.env.Keys) && (depth == 0 ==> !r.Exit?)
  }

  lemma BindKeys(params: seq<string>, vs: seq<Int32>)
    requires |params| == |vs|
    ensures Bind(params, vs).Keys == set x | x in params
  {
    if params != [] {
      var n := |params| - 1;
      BindKeys(params[..n], vs[..n]);
      assert params == params[..n] + [params[n]];
    }
  }

  lemma ApplyTotal(op: Operator, args: seq<Expr>, vs: seq<Int32>)
    requires |args| == |vs| == Arity(op) && Total(op, args) && (op in {Sar, Shl} ==> vs[1] == args[1].v)
    ensures Apply(op, vs).Some?
  {
  }

  lemma EvalDefined(depth: nat, fs: seq<Func>, ids: Ids, e: Expr, env: Env, mem: Memory, fuel: nat, known: set<string>)
    requires DefinedFuncs(depth, fs) && Defined(depth, fs, e, known) && known <= env.Keys
    ensures !Eval(depth, fs, ids, e, env, mem, fuel).NoValue?
    decreases depth, fuel, e, 1
  {
    match e
    case Op(op, args) =>
      EvalAllDefined(depth, fs, ids, args, env, mem, fuel, known);
      var r := EvalAll(depth, fs, ids, args, env, mem, fuel);
      if r.Vals? {
        if op in {Sar, Shl} { SecondLiteral(depth, fs, ids, args, env, mem, fuel); }
        ApplyTotal(op, args, r.vs);
      }
    case MemLoad(a) => EvalDefined(depth, fs, ids, a, env, mem, fuel, known);
    case CallF(f, args) =>
      EvalAllDefined(depth, fs, ids, args, env, mem, fuel, known);
      var r, k := EvalAll(depth, fs, ids, args, env, mem, fuel), FindFunc(fs, f);
      if r.Vals? {
        CallDefined(fs, ids, fs[k], r.vs, r.mem, fuel);
      }
    case _ =>
  }

  lemma SecondLiteral(depth: nat, fs: seq<Func>, ids: Ids, args: seq<Expr>, env: Env, mem: Memory, fuel: nat)
    requires |args| == 2 && args[1].Lit? && EvalAll(depth, fs, ids, args, env, mem, fuel).Vals?
    ensures EvalAll(depth, fs, ids, args, env, mem, fuel).vs[1] == args[1].v
  {
    var rest := args[1..];
    assert rest[0] == args[1];
    var r := Eval(depth, fs, ids, args[0], env, mem, fuel);
    assert EvalAll(depth, fs, ids, rest, env, r.mem, fuel).vs[0] == args[1].v;
  }

  lemma EvalAllDefined(depth: nat, fs: seq<Func>, ids: Ids, es: seq<Expr>, env: Env, mem: Memory, fuel: nat, known: set<string>)
    requires DefinedFuncs(depth, fs) && (forall a <- es :: Defined(depth, fs, a, known)) && known <= env.Keys
    ensures !EvalAll(depth, fs, ids, es, env, mem, fuel).NoValues?
    decreases depth, fuel, es, 0
  {
    hide Eval, Defined, DefinedFuncs;
    if es != [] {
      EvalDefined(depth, fs, ids, es[0], env, mem, fuel, known);
      var r := Eval(depth, fs, ids, es[0], env, mem, fuel);
      if r.Val? {
        EvalAllDefined(depth, fs, ids, es[1..], env, r.mem, fuel, known);
      }
    }
  }

  lemma CallDefined(fs: seq<Func>, ids: Ids, f: Func, vs: seq<Int32>, mem: Memory, fuel: nat)
    requires DefinedFuncs(1, fs) && f in fs && |vs| == |f.params|
    ensures var r := RunBlock(0, fs, ids, f.body, Bind(f.params, vs), mem, fuel); r.Result? || r.Timeout?
    decreases 0, fuel, f.body, 2
  {
    BindKeys(f.params, vs);
    BlockDefined(0, fs, ids, f.body, Bind(f.params, vs), mem, fuel, set x | x in f.params);
    ValueAtEnd(fs, ids, f.body, Bind(f.params, vs), mem, fuel);
  }

  lemma ValueAtEnd(fs: seq<Func>, ids: Ids, b: Block, env: Env, mem: Memory, fuel: nat)
    requires EndsInValue(b)
    ensures !RunBlock(0, fs, ids, b, env, mem, fuel).Normal?
    decreases b
  {
    var r := RunStmt(0, fs, ids, b.head, env, mem, fuel);
    if r.Normal? && !b.tail.End? {
      ValueAtEnd(fs, ids, b.tail, r.env, r.mem, fuel);
    }
  }

  lemma BlockDefined(depth: nat, fs: seq<Func>, ids: Ids, b: Block, env: Env, mem: Memory, fuel: nat, known: set<string>)
    requires DefinedFuncs(depth, fs) && DefinedBlock(depth, fs, b, known) && known <= env.Keys
    ensures Unstuck(depth, RunBlock(depth, fs, ids, b, env, mem, fuel), SetByAll(b, known))
    decreases depth, fuel, b, 0
  {
    hide RunStmt, DefinedStmt, SetBy, DefinedFuncs;
    if b.Seq? {
      StmtDefined(depth, fs, ids, b.head, env, mem, fuel, known);
      var r := RunStmt(depth, fs, ids, b.head, env, mem, fuel);
      if r.Normal? {
        BlockDefined(depth, fs, ids, b.tail, r.env, r.mem, fuel, SetBy(b.head, known));
      }
    }
  }

  lemma StmtDefined(depth: nat, fs: seq<Func>, ids: Ids, s: Stmt, env: Env, mem: Memory, fuel: nat, known: set<string>)
    requires DefinedFuncs(depth, fs) && DefinedStmt(depth, fs, s, known) && known <= env.Keys
    ensures Unstuck(depth, RunStmt(depth, fs, ids, s, env, mem, fuel), SetBy(s, known))
    decreases depth, fuel, s, 1
  {
    hide Eval, EvalAll, Defined, DefinedFuncs, RunBlock, RunLoop, DefinedBlock, SetByAll;
    match s
    case Decl(_, e) => EvalDefined(depth, fs, ids, e, env, mem, fuel, known);
    case Assign(_, e) => EvalDefined(depth, fs, ids, e, env, mem, fuel, known);
    case Store(a, v) =>
      EvalDefined(depth, fs, ids, v, env, mem, fuel, known);
      var r := Eval(depth, fs, ids, v, env, mem, fuel);
      if r.Val? { EvalDefined(depth, fs, ids, a, env, r.mem, fuel, known); }
    case If(cond, thn, els) =>
      EvalAllDefined(depth, fs, ids, cond.args, env, mem, fuel, known);
      var r := EvalAll(depth, fs, ids, cond.args, env, mem, fuel);
      if r.Vals? {
        BlockDefined(depth, fs, ids, thn, env, r.mem, fuel, known);
        BlockDefined(depth, fs, ids, els, env, r.mem, fuel, known);
      }
    case For(x, init, _, _) =>
      EvalDefined(depth, fs, ids, init, env, mem, fuel, known);
      var r := SetVar(x, Eval(depth, fs, ids, init, env, mem, fuel), env);
      if r.Normal? { LoopDefined(depth, fs, ids, s, r.env, r.mem, fuel, known + {x}); }
    case Return(None) =>
    case Return(Some(e)) => EvalDefined(depth, fs, ids, e, env, mem, fuel, known);
  }

  /** A body never takes a name back. */
  lemma LoopDefined(depth: nat, fs: seq<Func>, ids: Ids, s: Stmt, env: Env, mem: Memory, fuel: nat, known: set<string>)
    requires s.For? && s.v in known && DefinedFuncs(depth, fs) && known <= env.Keys
    requires Defined(depth, fs, s.bound, known) && DefinedBlock(depth, fs, s.body, known)
    ensures Unstuck(depth, RunLoop(depth, fs, ids, s, env, mem, fuel), known)
    decreases depth, fuel, s, 0
  {
    hide Eval, Defined, DefinedFuncs, RunBlock, DefinedBlock, SetByAll;
    if fuel > 0 {
      EvalDefined(depth, fs, ids, s.bound, env, mem, fuel, known);
      var b := Eval(depth, fs, ids, s.bound, env, mem, fuel);
      if b.Val? && env[s.v] < b.v {
        BlockDefined(depth, fs, ids, s.body, env, b.mem, fuel, known);
        SetByGrows(s.body, known);
        var r := RunBlock(depth, fs, ids, s.body, env, b.mem, fuel);
        if r.Normal? {
          LoopDefined(depth, fs, ids, s, r.env[s.v := S32(r.env[s.v] as int + 1)], r.mem, fuel - 1, known);
        }
      }
    }
  }

  lemma SetByGrows(b: Block, known: set<string>)
    ensures known <= SetByAll(b, known)
    decreases b, 0
  {
    if b.Seq? {
      StmtGrows(b.head, known);
      SetByGrows(b.tail, SetBy(b.head, known));
    }
  }

  lemma StmtGrows(s: Stmt, known: set<string>)
    ensures known <= SetBy(s, known)
    decreases s, 1
  {
    match s
    case If(_, thn, els) => SetByGrows(thn, known); SetByGrows(els, known);
    case _ =>
  }

  /** Progress: such a program is never stuck, on any memory, for any thread. */
  lemma ProgramDefined(p: Program, ids: Ids, mem: Memory, fuel: nat)
    requires DefinedProgram(p)
    ensures !Meaning(p, ids, mem, fuel).Stuck?
  {
    hide DefinedBlock, RunBlock;
    var k := p.kernels[0];
    BindKeys(k.params, ParamValues(|k.params|, mem));
    BlockDefined(1, p.funcs, ids, k.body, ParamEnv(k.params, mem), mem, fuel, set x | x in k.params);
  }

  /** So every start of it is defined, and the lane halts just if some start of the kernel ends. */
  lemma HaltsUnconditionally(p: Program, ids: Ids, s: Lane)
    requires p.kernels != [] && DefinedProgram(p) && Compile(p).Some? && CleanProgram(p) && Start(s)
    ensures Halts(ids, DecodeAll(Compile(p).value), s) <==> SomeStartEnds(p, ids, s.mem)
  {
    hide DefinedProgram, CleanProgram, Compile, Meaning, Halts, SomeStartEnds;
    forall k: nat, m': Memory, fuel: nat | Restarted(p, ids, s.mem, k, m')
      ensures !Meaning(p, ids, m', fuel).Stuck?
    {
      ProgramDefined(p, ids, m', fuel);
    }
    HaltsExactly(p, ids, s);
  }
}
