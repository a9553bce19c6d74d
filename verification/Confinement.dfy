/** Runs that stay in one region of the program, and the registers they leave alone. */
module Confinement {
  import opened Isa
  import opened Lang
  import opened Lowering
  import opened Layout
  import opened Footprint
  import opened Simulation

  /** A region of the program: branches stay inside and its last instruction is RET or SRET. */
  ghost predicate RegionAt(w: World, calls: bool, code: seq<Instr>, at: int) {
    CodeAt(w, at, code) && Region(w.fs, calls, code)
  }

  /** What the instruction at position `i` of a region can be. */
  lemma AtRegion(w: World, calls: bool, code: seq<Instr>, at: int, i: nat)
    requires RegionAt(w, calls, code, at) && i < |code|
    ensures 0 <= at + i < |w.prog| && w.prog[at + i] == LinkInstr(w.fs, w.starts, code[i], at + i)
    ensures code[i].Brnzp? ==> 0 <= i + code[i].off < |code|
    ensures code[i].CallTo? ==> calls && FindFunc(w.fs, code[i].name) < |w.fs|
    ensures !code[i].Call? && !code[i].Invalid?
    ensures i + 1 < |code| || code[i].Ret? || code[i].Sret?
  {
    hide FindFunc;
  }

  lemma RegionNonEmpty(w: World, calls: bool, code: seq<Instr>, at: int)
    requires RegionAt(w, calls, code, at)
    ensures |code| > 0 && at + |code| <= |w.prog|
  {
  }

  /** A lane in the body of a func that is placed at `at`. */
  predicate Inside(code: seq<Instr>, at: int, s: Lane) {
    at <= s.pc < at + |code| && s.stack != [] && |s.regs| == 32
  }

  /** A step inside a func's body: unless it returns it stays there, and a register the body does not write keeps its content. */
  lemma StepConfined(w: World, code: seq<Instr>, at: int, s: Lane, r: int)
    requires RegionAt(w, false, code, at) && Inside(code, at, s) && 0 < r <= 28 && !Written(code, r)
    ensures var s' := Step(w.ids, w.prog, s);
            && Read(w.ids, s', r) == Read(w.ids, s, r) && |s'.regs| == 32
            && (|s'.stack| >= |s.stack| ==> Inside(code, at, s') && s'.stack == s.stack)
  {
    hide FindFunc, AluResult, Load, RegionAt, CompareNzp, NzpMatch;
    var i := s.pc - at;
    AtRegion(w, false, code, at, i);
    assert !Writes(code[i], r);
  }

  lemma DeepStep(w: World, s: Lane, n: nat)
    requires n > 1 && Deep(w, s, n)
    ensures var s1 := Step(w.ids, w.prog, s);
            |s1.stack| >= |s.stack| && (s1.stack == s.stack ==> Deep(w, s1, n - 1))
  {
    hide Step;
    var s1 := Step(w.ids, w.prog, s);
    assert Isa.Run(w.ids, w.prog, s, 1) == s1 by { assert Isa.Run(w.ids, w.prog, s1, 0) == s1; }
    forall m: nat | m < n - 1
      ensures |Isa.Run(w.ids, w.prog, s1, m).stack| >= |s.stack|
    {
      assert Isa.Run(w.ids, w.prog, s, m + 1) == Isa.Run(w.ids, w.prog, s1, m);
    }
  }

  /** A run from inside a func's body for as long as it has not returned, or up to and including its return. */
  lemma {:induction false} RunConfined(w: World, code: seq<Instr>, at: int, s: Lane, n: nat, r: int)
    requires CodeAt(w, at, code) && Region(w.fs, false, code) && 0 < r <= 28 && !Written(code, r)
    requires n > 0 ==> Inside(code, at, s)
    requires Deep(w, s, n)
    ensures Read(w.ids, Isa.Run(w.ids, w.prog, s, n), r) == Read(w.ids, s, r)
    decreases n
  {
    hide CodeAt, Region, Inside, Step, Written, Read;
    if n > 0 {
      StepConfined(w, code, at, s, r);
      var s1 := Step(w.ids, w.prog, s);
      assert Isa.Run(w.ids, w.prog, s, n) == Isa.Run(w.ids, w.prog, s1, n - 1);
      if n > 1 {
        DeepStep(w, s, n);
      }
      RunConfined(w, code, at, s1, n - 1, r);
    }
  }
}
