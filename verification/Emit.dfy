/** The instruction buffer: a fixed array of words, filled in order and patched in place. */
module Emit {
  import opened Isa
  import opened Lowering

  class InstrBuf {
    const instructions: array<int>
    var count: nat
    // Set where the program exits because the buffer is full; from then on nothing more happens to it.
    var overflow: bool
    // The instructions the words stand for. A call not yet patched is kept with the name of its func.
    ghost var code: seq<Instr>

    ghost predicate Valid()
      reads this, instructions
    {
      && instructions.Length == MAX_INSTRUCTIONS && count <= MAX_INSTRUCTIONS
      && (!overflow ==> count == |code| && forall k :: 0 <= k < count ==> instructions[k] == Encode(code[k]))
    }

    constructor ()
      ensures Valid() && fresh(instructions) && !overflow && code == [] && count == 0
    {
      instructions := new int[MAX_INSTRUCTIONS];
      count := 0;
      overflow := false;
      code := [];
    }

    /** Packs the instruction and appends the word. */
    method Push(i: Instr)
      requires Valid()
      modifies this, instructions
      ensures Valid() && (overflow <==> old(overflow) || |old(code)| + 1 > MAX_INSTRUCTIONS)
      ensures !overflow ==> code == old(code) + [i]
    {
      if overflow || count >= MAX_INSTRUCTIONS {
        overflow := true;
        return;
      }
      instructions[count] := Encode(i);
      count := count + 1;
      code := code + [i];
    }

    method Patch(idx: nat, i: Instr)
      requires Valid() && (!overflow ==> idx < count)
      modifies this`code, instructions
      ensures Valid() && (!overflow ==> idx < |old(code)| && code == old(code)[idx := i])
    {
      if !overflow {
        instructions[idx] := Encode(i);
        code := code[idx := i];
      }
    }
  }
}
