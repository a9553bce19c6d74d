/** The compiler from tokens to words, and what the three stages come to together. */
module Driver {
  import opened Words
  import opened Isa
  import opened Lang
  import opened Grammar
  import opened ProgramGrammar
  import opened Lowering
  import opened Preservation
  import opened Correctness
  import Parser
  import Codegen

  /** Parse, check, generate; an error of any stage is an error of the whole. */
  method CompileTokens(tokens: seq<Token>) returns (err: bool, words: seq<int>)
    ensures var p := ParseProgram(tokens, Program([], []));
            && (err <==> p.None? || Compile(p.value).None?)
            && (!err ==> Compile(p.value) == Some(words))
  {
    hide ParseProgram, Compile;
    var p := Parser.Parse(tokens);
    if p.None? {
      return true, [];
    }
    err, words := Codegen.CompileProgram(p.value);
  }

  /** The tokens of a clean program that compiles, put through the whole compiler, give words on which the lane ends
      with the memory the program says. */
  lemma PrintedProgramRuns(p: Program, ids: Ids, s: Lane, fuel: nat) returns (n: nat)
    requires WellFormedProgram(p) && Compile(p).Some? && CleanProgram(p) && Start(s) && Ended(Meaning(p, ids, s.mem, fuel))
    ensures var q := ParseProgram(PrintProgram(p), Program([], []));
            && q.Some? && Compile(q.value).Some?
            && var s' := Isa.Run(ids, DecodeAll(Compile(q.value).value), s, n);
               s'.halted && s'.mem == Meaning(p, ids, s.mem, fuel).mem
  {
    hide ParseProgram, PrintProgram, Compile, Meaning, Isa.Run, WellFormedProgram, CleanProgram;
    ProgramPrinted(p);
    n := KernelCorrect(p, ids, s, fuel);
  }
}
