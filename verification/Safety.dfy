/** Control safety of compiled programs, for every run and whatever the source computes. */
module Safety {
  import opened Isa
  import opened Lang
  import opened Sema
  import opened Lowering
  import opened Simulation
  import opened Confinement
  import opened Preservation
  import opened Layout
  import opened Compiler

  function FuncCode(w: World, k: nat): seq<Instr>
    requires k < |w.fs| == |w.tabs|
  {
    match LowerBlock(w.tabs[k], w.fs[k].body) case Some(code) => code case None => []
  }

  ghost predicate Laid(p: Program, w: World, ktab: seq<Binding>) {
    && p.kernels != [] && |w.fs| == |w.tabs| == |w.starts|
    && RegionAt(w, true, KernelCode(p, ktab), 0)
    && forall k :: 0 <= k < |w.fs| ==> RegionAt(w, false, FuncCode(w, k), w.starts[k]) && w.starts[k] >= |KernelCode(p, ktab)|
  }

  /** A compiled program is the kernel's region followed by one region for each func. */
  lemma CompiledLaid(p: Program, w: World, ktab: seq<Binding>, words: seq<int>)
    requires Compiled(p, w, ktab, words)
    ensures Laid(p, w, ktab)
  {
    hide LowerBlock, LowerKernel, Check, Compile, LowerFuncs, Link, Within, GoodFunc, FewArgs, Region, CodeAt;
    CodePlaced(p, w, ktab, words);
    KernelRegion(p);
    AcceptedArgs(p);
    forall k | 0 <= k < |w.fs|
      ensures RegionAt(w, false, FuncCode(w, k), w.starts[k]) && w.starts[k] >= |KernelCode(p, ktab)|
    {
      AcceptedFunc(p, k);
      FuncRegion(p.funcs, w.tabs[k], p.funcs[k]);
    }
  }

  /** In the kernel with no call in progress. */
  ghost predicate InKernel(p: Program, ktab: seq<Binding>, s: Lane) {
    p.kernels != [] && s.stack == [] && 0 <= s.pc < |KernelCode(p, ktab)|
  }

  /** In the k-th func, with the return address behind a call of that very func in the kernel. */
  ghost predicate InFunc(p: Program, w: World, ktab: seq<Binding>, s: Lane, k: nat) {
    && p.kernels != [] && k < |w.fs| == |w.tabs| == |w.starts| && |s.stack| == 1
    && w.starts[k] <= s.pc < w.starts[k] + |FuncCode(w, k)|
    && 1 <= s.stack[0] < |KernelCode(p, ktab)| <= |w.prog|
    && w.prog[s.stack[0] - 1] == Isa.Call(w.starts[k] - (s.stack[0] - 1))
  }

  ghost predicate OnTrack(p: Program, w: World, ktab: seq<Binding>, s: Lane) {
    InKernel(p, ktab, s) || exists k: nat :: InFunc(p, w, ktab, s, k)
  }

  lemma StepInKernel(p: Program, w: World, ktab: seq<Binding>, s: Lane)
    requires Laid(p, w, ktab) && InKernel(p, ktab, s)
    ensures OnTrack(p, w, ktab, Step(w.ids, w.prog, s))
  {
    hide KernelCode, FuncCode, RegionAt, FindFunc, Read, AluResult;
    var code := KernelCode(p, ktab);
    AtRegion(w, true, code, 0, s.pc);
    var s' := Step(w.ids, w.prog, s);
    if code[s.pc].CallTo? && !s.halted {
      var k := FindFunc(w.fs, code[s.pc].name);
      RegionNonEmpty(w, false, FuncCode(w, k), w.starts[k]);
      RegionNonEmpty(w, true, code, 0);
      assert InFunc(p, w, ktab, s', k);
    } else {
      assert InKernel(p, ktab, s');
    }
  }

  lemma StepInFunc(p: Program, w: World, ktab: seq<Binding>, s: Lane, k: nat)
    requires Laid(p, w, ktab) && InFunc(p, w, ktab, s, k)
    ensures OnTrack(p, w, ktab, Step(w.ids, w.prog, s))
  {
    hide KernelCode, FuncCode, RegionAt, FindFunc, Read, AluResult;
    var code := FuncCode(w, k);
    AtRegion(w, false, code, w.starts[k], s.pc - w.starts[k]);
    var s' := Step(w.ids, w.prog, s);
    if code[s.pc - w.starts[k]].Sret? && !s.halted {
      assert InKernel(p, ktab, s');
    } else {
      assert InFunc(p, w, ktab, s', k);
    }
  }

  /** Control safety. In every state of every run the pc is in the kernel with no call open, or in a func whose
      return address lies behind a kernel call of that func; so control never falls from one body into the next
      and no call is ever nested. */
  lemma RunsStayOnTrack(p: Program, ids: Ids, s: Lane, n: nat)
    requires Compile(p).Some? && Start(s)
    ensures OnTrack(p, WorldOf(p, ids), KernelTable(p), Isa.Run(ids, DecodeAll(Compile(p).value), s, n))
  {
    hide Compile, KernelCode, OnTrack, Step, WorldOf;
    var w, ktab := WorldOf(p, ids), KernelTable(p);
    CompiledWorld(p, ids);
    CompiledLaid(p, w, ktab, Compile(p).value);
    WordsDecode(p, ids);
    TrackRun(p, w, ktab, s, n) by { StartsOnTrack(p, w, ktab, s); }
  }

  lemma StartsOnTrack(p: Program, w: World, ktab: seq<Binding>, s: Lane)
    requires Laid(p, w, ktab) && Start(s)
    ensures OnTrack(p, w, ktab, s)
  {
    hide KernelCode, RegionAt;
    RegionNonEmpty(w, true, KernelCode(p, ktab), 0);
  }

  lemma {:induction false} TrackRun(p: Program, w: World, ktab: seq<Binding>, s: Lane, n: nat)
    requires Laid(p, w, ktab) && OnTrack(p, w, ktab, s)
    ensures OnTrack(p, w, ktab, Isa.Run(w.ids, w.prog, s, n))
    decreases n
  {
    hide Laid, Step, InKernel, InFunc;
    if n > 0 {
      if InKernel(p, ktab, s) {
        StepInKernel(p, w, ktab, s);
      } else {
        var k: nat :| InFunc(p, w, ktab, s, k);
        StepInFunc(p, w, ktab, s, k);
      }
      TrackRun(p, w, ktab, Step(w.ids, w.prog, s), n - 1);
    }
  }

  /** Backpatching. In the decoded words every branch of the kernel lands in the kernel, every branch of a func in
      that func, and every call on the first word of the func it names. */
  lemma BranchesLand(p: Program, ids: Ids, i: nat)
    requires Compile(p).Some? && i < |Compile(p).value|
    ensures var w, code := WorldOf(p, ids), KernelCode(p, KernelTable(p));
            && var d := Decode(Compile(p).value[i]);
            && (i < |code| && d.Brnzp? ==> 0 <= i + d.off < |code|)
            && (i < |code| && d.Call? ==> code[i].CallTo? && FindFunc(w.fs, code[i].name) < |w.fs| == |w.starts|
                                          && i + d.off == w.starts[FindFunc(w.fs, code[i].name)])
            && |w.fs| == |w.tabs| == |w.starts|
            && forall k :: 0 <= k < |w.fs| && w.starts[k] <= i < w.starts[k] + |FuncCode(w, k)| ==>
                 !d.Call? && (d.Brnzp? ==> w.starts[k] <= i + d.off < w.starts[k] + |FuncCode(w, k)|)
  {
    hide Compile, KernelCode, FuncCode, WorldOf, RegionAt, FindFunc, Decode, LowerProgram, Check;
    var w, ktab := WorldOf(p, ids), KernelTable(p);
    CompiledWorld(p, ids);
    CompiledLaid(p, w, ktab, Compile(p).value);
    WordsDecode(p, ids);
    if i < |KernelCode(p, ktab)| {
      AtRegion(w, true, KernelCode(p, ktab), 0, i);
    }
    forall k | 0 <= k < |w.fs| && w.starts[k] <= i < w.starts[k] + |FuncCode(w, k)|
      ensures var d := w.prog[i]; !d.Call? && (d.Brnzp? ==> w.starts[k] <= i + d.off < w.starts[k] + |FuncCode(w, k)|)
    {
      AtRegion(w, false, FuncCode(w, k), w.starts[k], i - w.starts[k]);
    }
  }
}
