/** Whole programs: accepted source, emitted words, and the runs of a lane on them. */
module Compiler {
  import opened Words
  import opened Isa
  import opened Lang
  import opened Sema
  import opened Lowering
  import opened Simulation
  import opened Layout

  // ----- what acceptance says about one body -----

  ghost predicate GoodTable(tab: seq<Binding>, first: int, max: int) {
    && (forall x :: Lookup(tab, x) == -1 || first <= Lookup(tab, x) <= max)
    && (forall x, y :: Lookup(tab, x) == Lookup(tab, y) != -1 ==> x == y)
  }

  ghost predicate GoodBody(fs: seq<Func>, tab: seq<Binding>, f: Func, first: int, max: int) {
    && GoodTable(tab, first, max) && NamedBlock(fs, tab, f.body) && |f.params| <= max + 1 - first
    && forall i :: 0 <= i < |f.params| ==> Lookup(tab, f.params[i]) == first + i
  }

  const FUNC_LAST := FUNC_REG_BASE + FUNC_MAX_VARS - 1

  ghost predicate GoodFunc(fs: seq<Func>, tab: seq<Binding>, f: Func) {
    GoodBody(fs, tab, f, FUNC_REG_BASE, FUNC_LAST) && !BlockHasCall(f.body) && EndsInValue(f.body)
  }

  lemma NumberedTable(k: Syms, first: int)
    requires Numbered(k, first) && first > 0
    ensures GoodTable(k.vars, first, k.max)
  {
    forall x
      ensures Lookup(k.vars, x) == -1 || first <= Lookup(k.vars, x) <= k.max
    {
      LookupNumbered(k, first, x);
    }
    forall x, y | Lookup(k.vars, x) == Lookup(k.vars, y) != -1
      ensures x == y
    {
      LookupNumbered(k, first, x);
      LookupNumbered(k, first, y);
    }
  }

  lemma AcceptedBody(fs: seq<Func>, k: Syms, f: Func, first: int)
    requires k.vars == [] && k.next == first > 0 && first <= k.max + 1 && CheckBody(fs, k, f).Some?
    ensures GoodBody(fs, CheckBody(fs, k, f).value.vars, f, first, k.max)
  {
    hide CheckBody, NamedBlock, Lookup;
    CheckBodyKeeps(fs, k, f, first);
    NumberedTable(CheckBody(fs, k, f).value, first);
  }

  /** Every accepted func has a table in its window, is call-free and returns a value at its end. */
  lemma AcceptedFunc(p: Program, k: nat)
    requires Check(p).Some? && k < |p.funcs|
    ensures GoodFunc(p.funcs, Check(p).value.1[k], p.funcs[k])
  {
    CheckFuncsEach(p.funcs, p.funcs, k);
    AcceptedBody(p.funcs, FuncSyms(), p.funcs[k], FUNC_REG_BASE);
  }

  function KernelMax(fs: seq<Func>): int { KernelStart(fs).max }

  lemma AcceptedKernel(p: Program)
    requires Check(p).Some? && p.kernels != []
    ensures GoodBody(p.funcs, Check(p).value.0[0], p.kernels[0], 1, KernelMax(p.funcs))
  {
    CheckKernelsEach(p.funcs, p.kernels, 0);
    AcceptedBody(p.funcs, KernelStart(p.funcs), p.kernels[0], 1);
  }

  lemma AcceptedArgs(p: Program)
    requires Check(p).Some?
    ensures FewArgs(p.funcs)
  {
    hide Check, GoodTable;
    forall k | 0 <= k < |p.funcs|
      ensures |p.funcs[k].params| <= FUNC_MAX_VARS
    {
      AcceptedFunc(p, k);
    }
  }

  // ----- regions -----

  lemma {:induction false} LoadsStraight(fs: seq<Func>, calls: bool, tab: seq<Binding>, params: seq<string>, i: nat)
    requires i <= |params| <= MAX_VARS && forall j :: 0 <= j < |params| ==> Lookup(tab, params[j]) == 1 + j
    ensures Straight(fs, calls, LoadParams(tab, params, i))
    ensures |LoadParams(tab, params, i)| == |params| - i
    ensures forall k :: 0 <= k < |LoadParams(tab, params, i)| ==> LoadParams(tab, params, i)[k].Ldr?
    decreases |params| - i
  {
    hide Lookup;
    if i < |params| {
      LoadsStraight(fs, calls, tab, params, i + 1);
    }
  }

  lemma KernelRegion(p: Program)
    requires Check(p).Some? && p.kernels != [] && LowerKernel(Check(p).value.0[0], p.kernels[0]).Some?
    ensures Region(p.funcs, true, LowerKernel(Check(p).value.0[0], p.kernels[0]).value)
  {
    hide Check, LowerBlock, LoadParams, Within, NamedBlock, GoodTable, Straight, FewArgs;
    var tab, k := Check(p).value.0[0], p.kernels[0];
    AcceptedKernel(p);
    AcceptedArgs(p);
    GoodRange(tab, 1, KernelMax(p.funcs));
    BlockTidy(p.funcs, true, tab, k.body);
    LoadsStraight(p.funcs, true, tab, k.params, 0);
    var loads, body := LoadParams(tab, k.params, 0), LowerBlock(tab, k.body).value;
    StraightTidy(p.funcs, true, loads);
    TidyCat(p.funcs, true, loads, body);
    CloseRegion(p.funcs, true, loads + body);
  }

  lemma GoodRange(tab: seq<Binding>, first: int, max: int)
    requires GoodTable(tab, first, max) && first > 0 && max < TMP_BASE
    ensures InRange(tab)
  {
  }

  lemma CloseRegion(fs: seq<Func>, calls: bool, code: seq<Instr>)
    requires Tidy(fs, calls, code)
    ensures Region(fs, calls, CloseKernel(code))
  {
    if CloseKernel(code) != code {
      assert Within(fs, calls, [Ret], |code|, |code|);
      WithinCat(fs, calls, code, [Ret], 0, |code|);
    }
  }

  /** A body that ends in a `return expr;` is lowered to code that ends in SRET. */
  lemma {:induction false} ValueLast(tab: seq<Binding>, b: Block)
    requires EndsInValue(b) && LowerBlock(tab, b).Some?
    ensures var code := LowerBlock(tab, b).value; code != [] && code[|code| - 1].Sret?
    decreases b
  {
    hide LowerExpr, Mov;
    if b.tail.End? {
      assert LowerBlock(tab, b).value == LowerStmt(tab, b.head).value + [];
    } else {
      ValueLast(tab, b.tail);
    }
  }

  lemma FuncRegion(fs: seq<Func>, tab: seq<Binding>, f: Func)
    requires GoodFunc(fs, tab, f) && FewArgs(fs) && LowerBlock(tab, f.body).Some?
    ensures Region(fs, false, LowerBlock(tab, f.body).value)
  {
    hide LowerBlock, EndsInValue, NamedBlock, BlockHasCall, GoodTable, FewArgs, Within;
    GoodRange(tab, FUNC_REG_BASE, FUNC_LAST);
    BlockTidy(fs, false, tab, f.body);
    ValueLast(tab, f.body);
  }

  // ----- the funcs behind the kernel -----

  /** The k-th func's code lies where its start says. */
  lemma {:induction false} FuncAt(tabs: seq<seq<Binding>>, fs: seq<Func>, at: nat, k: nat)
    requires |tabs| == |fs| && LowerFuncs(tabs, fs, at).Some? && k < |fs|
    ensures LowerBlock(tabs[k], fs[k].body).Some?
    ensures var (all, starts) := LowerFuncs(tabs, fs, at).value;
            var code := LowerBlock(tabs[k], fs[k].body).value;
            && at <= starts[k] && starts[k] - at + |code| <= |all|
            && all[starts[k] - at..starts[k] - at + |code|] == code
    decreases |fs|
  {
    hide LowerBlock;
    var first := LowerBlock(tabs[0], fs[0].body).value;
    var (all, starts) := LowerFuncs(tabs, fs, at).value;
    if k == 0 {
      assert all[..|first|] == first;
    } else {
      FuncAt(tabs[1..], fs[1..], at + |first|, k - 1);
      var (all', starts') := LowerFuncs(tabs[1..], fs[1..], at + |first|).value;
      var code := LowerBlock(tabs[k], fs[k].body).value;
      var o := starts[k] - at;
      assert all == first + all' && starts[k] == starts'[k - 1];
      assert all[o..o + |code|] == all'[o - |first|..o - |first| + |code|];
    }
  }

  lemma {:induction false} FuncsWithin(all: seq<Func>, tabs: seq<seq<Binding>>, fs: seq<Func>, at: nat)
    requires |tabs| == |fs| && LowerFuncs(tabs, fs, at).Some? && FewArgs(all)
    requires forall k :: 0 <= k < |fs| ==> GoodFunc(all, tabs[k], fs[k])
    ensures var code := LowerFuncs(tabs, fs, at).value.0; Within(all, true, code, 0, |code|)
    decreases |fs|
  {
    hide LowerBlock, GoodFunc, FewArgs, Within;
    if fs == [] {
      EmptyStraight(all, true);
      StraightWithin(all, true, [], 0, 0);
    } else {
      assert GoodFunc(all, tabs[0], fs[0]);
      FuncRegion(all, tabs[0], fs[0]);
      var first := LowerBlock(tabs[0], fs[0].body).value;
      forall k | 0 <= k < |fs[1..]|
        ensures GoodFunc(all, tabs[1..][k], fs[1..][k])
      {
        assert GoodFunc(all, tabs[k + 1], fs[k + 1]);
      }
      FuncsWithin(all, tabs[1..], fs[1..], at + |first|);
      var rest := LowerFuncs(tabs[1..], fs[1..], at + |first|).value.0;
      WithinCalls(all, first, |first| - 1);
      WithinShift(all, true, first, |first| - 1, 0, |first + rest|);
      WithinShift(all, true, rest, |rest|, |first|, |first + rest|);
      WithinCat(all, true, first, rest, 0, |first + rest|);
    }
  }

  lemma WithinCalls(fs: seq<Func>, code: seq<Instr>, last: int)
    requires Within(fs, false, code, 0, last)
    ensures Within(fs, true, code, 0, last)
  {
  }

  // ----- compiled programs -----

  ghost predicate Compiled(p: Program, w: World, ktab: seq<Binding>, words: seq<int>) {
    && Compile(p) == Some(words) && Check(p).Some? && p.kernels != []
    && ktab == Check(p).value.0[0] && w.tabs == Check(p).value.1 && w.fs == p.funcs
    && LowerProgram(ktab, w.tabs, p).Some?
    && var (code, starts) := LowerProgram(ktab, w.tabs, p).value;
       w.starts == starts && w.prog == Link(p.funcs, starts, code, 0) && |code| <= MAX_INSTRUCTIONS
       && words == EncodeAll(w.prog)
  }

  ghost function KernelTable(p: Program): seq<Binding>
    requires Compile(p).Some?
  {
    Check(p).value.0[0]
  }

  ghost function WorldOf(p: Program, ids: Ids): World
    requires Compile(p).Some?
  {
    var (code, starts) := LowerProgram(Check(p).value.0[0], Check(p).value.1, p).value;
    World(Link(p.funcs, starts, code, 0), p.funcs, Check(p).value.1, starts, ids)
  }

  lemma CompiledWorld(p: Program, ids: Ids)
    requires Compile(p).Some?
    ensures Compiled(p, WorldOf(p, ids), KernelTable(p), Compile(p).value) && WorldOf(p, ids).ids == ids
  {
    hide LowerProgram, Check, Link;
  }

  function KernelCode(p: Program, ktab: seq<Binding>): seq<Instr>
    requires p.kernels != []
  {
    match LowerKernel(ktab, p.kernels[0]) case Some(code) => code case None => []
  }

  /** The kernel's code is at 0, each func's at its start. */
  lemma CodePlaced(p: Program, w: World, ktab: seq<Binding>, words: seq<int>)
    requires Compiled(p, w, ktab, words)
    ensures |w.fs| == |w.tabs| == |w.starts| && LowerKernel(ktab, p.kernels[0]).Some?
    ensures CodeAt(w, 0, KernelCode(p, ktab))
    ensures forall k :: 0 <= k < |w.fs| ==>
              && LowerBlock(w.tabs[k], w.fs[k].body).Some? && w.starts[k] >= |KernelCode(p, ktab)|
              && CodeAt(w, w.starts[k], LowerBlock(w.tabs[k], w.fs[k].body).value)
  {
    hide LowerBlock, LowerKernel, Check, LinkInstr, Compile, LowerFuncs;
    var kernel := KernelCode(p, ktab);
    var (code, starts) := LowerProgram(ktab, w.tabs, p).value;
    var (funcs, _) := LowerFuncs(w.tabs, p.funcs, |kernel|).value;
    assert code == kernel + funcs;
    forall k | 0 <= k < |w.fs|
      ensures LowerBlock(w.tabs[k], w.fs[k].body).Some? && w.starts[k] >= |kernel|
      ensures CodeAt(w, w.starts[k], LowerBlock(w.tabs[k], w.fs[k].body).value)
    {
      FuncAt(w.tabs, p.funcs, |kernel|, k);
      var body, o := LowerBlock(w.tabs[k], w.fs[k].body).value, starts[k] - |kernel|;
      assert funcs[o..o + |body|] == body;
      forall j | 0 <= j < |body|
        ensures w.prog[starts[k] + j] == LinkInstr(w.fs, w.starts, body[j], starts[k] + j)
      {
        assert funcs[o..o + |body|][j] == body[j];
        assert code[starts[k] + j] == funcs[o + j] == body[j];
      }
    }
  }

  /** All code before linking: branches stay inside the program, and calls name existing funcs. */
  lemma CodeWithin(p: Program, w: World, ktab: seq<Binding>, words: seq<int>)
    requires Compiled(p, w, ktab, words)
    ensures var code := LowerProgram(ktab, w.tabs, p).value.0; Within(p.funcs, true, code, 0, |code|)
  {
    hide LowerBlock, LowerKernel, Check, Compile, LowerFuncs, Link, Within, GoodFunc, FewArgs;
    AcceptedArgs(p);
    forall k | 0 <= k < |p.funcs|
      ensures GoodFunc(p.funcs, w.tabs[k], p.funcs[k])
    {
      AcceptedFunc(p, k);
    }
    var kernel := LowerKernel(ktab, p.kernels[0]).value;
    KernelRegion(p);
    FuncsWithin(p.funcs, w.tabs, p.funcs, |kernel|);
    var funcs := LowerFuncs(w.tabs, p.funcs, |kernel|).value.0;
    WithinShift(p.funcs, true, kernel, |kernel| - 1, 0, |kernel + funcs|);
    WithinShift(p.funcs, true, funcs, |funcs|, |kernel|, |kernel + funcs|);
    WithinCat(p.funcs, true, kernel, funcs, 0, |kernel + funcs|);
  }

  lemma LinkedEncodable(fs: seq<Func>, starts: seq<nat>, code: seq<Instr>, k: nat)
    requires k < |code| <= MAX_INSTRUCTIONS && |starts| == |fs| && Within(fs, true, code, 0, |code|)
    requires forall f :: 0 <= f < |starts| ==> starts[f] <= |code|
    ensures Encodable(LinkInstr(fs, starts, code[k], k))
  {
    if code[k].Brnzp? {
      assert 0 <= k + code[k].off <= |code|;
    } else if code[k].CallTo? {
      assert starts[FindFunc(fs, code[k].name)] <= |code|;
    }
  }

  /** The emitted words are 32-bit words and decode to the linked program, every branch and call target included. */
  lemma WordsDecode(p: Program, ids: Ids)
    requires Compile(p).Some?
    ensures DecodeAll(Compile(p).value) == WorldOf(p, ids).prog
    ensures |Compile(p).value| <= MAX_INSTRUCTIONS
    ensures forall k :: 0 <= k < |Compile(p).value| ==> 0 <= Compile(p).value[k] < TWO32
  {
    hide LowerBlock, LowerProgram, Check, Compile, Encodable, Encode, Decode, Within, LowerKernel;
    var w, ktab, words := WorldOf(p, ids), KernelTable(p), Compile(p).value;
    CompiledWorld(p, ids);
    CodeWithin(p, w, ktab, words);
    CodePlaced(p, w, ktab, words);
    var (code, starts) := LowerProgram(ktab, w.tabs, p).value;
    forall k | 0 <= k < |words|
      ensures Decode(words[k]) == w.prog[k] && 0 <= words[k] < TWO32
    {
      forall f | 0 <= f < |starts|
        ensures starts[f] <= |code|
      {
        assert CodeAt(w, w.starts[f], LowerBlock(w.tabs[f], w.fs[f].body).value);
      }
      LinkedEncodable(p.funcs, starts, code, k);
      DecodeEncode(w.prog[k]);
    }
  }
}
