# axelcc and the fixed-point kernels, verified

This project models two parts of the repository in Dafny and proves what they promise.

**The compiler.** `axelcc` turns tokens into a syntax tree, checks it, and emits at most 256 instruction words for a 32-bit
lane. The model has a grammar with a printer (`Grammar`, `ProgramGrammar`), the parser as it runs (`Parser`), the checker
as functions (`Sema`) and as it runs on a symbol table (`Checker`), the meaning of a program as an interpreter over C
`int` values (`Lang`), what is emitted as functions (`Lowering`), the generator as it runs on an instruction buffer
(`Emit`, `Codegen`), and the lane itself: bit layout, ALU, pc, registers, flags, memory and call stack (`Isa`).
Three references stand beside these, written without the constants, the parsing functions and the checks they are compared
with: the hardware's tables with their literal numbers and bit positions (`Rtl`), the token sequences that spell a program
(`Spelling`, `ProgramSpelling`), and which programs are acceptable (`Acceptance`). Each is proved equal to what the model does.
On top of these: the exact need for temporaries (`Temporaries`) and for instruction words (`Size`), what is folded
(`Folding`), the shape of emitted code (`Layout`, `Compiler`) and the registers it writes (`Footprint`,
`Confinement`), the simulation proof (`Operators`, `Simulation`, `Preservation`), compiler correctness (`Correctness`,
`Driver`), which programs are defined at all (`Progress`), control safety of every run (`Safety`, `Branches`), the
balance of SYNCs (`Nesting`), and what happens to temporaries across calls (`Survival`, `Forgetting`, `Limits`).

**The integer arithmetic of the neural-network reference.** The rounding primitives (`FixedPoint`), the reciprocal
(`Reciprocal`), the exponential, its monotonicity and its distance from the real one (`Exponential`, `ExponentialOrder`,
`ExponentialAccuracy`), the softmax over them, what it conserves and its distance from the real one (`Softmax`,
`Conservation`, `SoftmaxAccuracy`); packed int8 words (`Packing`), padded convolutions (`Convolution`), whole layers with
their requantisation (`Layers`), the table-driven softmax (`LutSoftmax`), its table against the real exponential
(`TableAccuracy`) and the attention over it (`Attention`). `Words` and `Rows` hold what these share.

Each class (`KernelSyms`, `InstrBuf`, `CGen`, `TokenParser`) updates its fields as the C code does, and each of its
methods is proved against a function of the old state; the lemmas are about those functions.

## Conventions

- An operator applied to operands is one kind of tree node (`Op`), whatever its number of operands; the C code has one
  kind for each. The methods that visit operands use the same loop for all of them.
- The values of C `int` wrap. An operator has a value only where the language or the ALU leaves no choice: shift amounts
  from 0 to 31, and division and remainder just where the ALU's unsigned result is the C one (`DivSafe` and `ModSafe`,
  shown exact by `DivAgreesIff` and `ModAgreesIff`). Elsewhere the interpreter is stuck and nothing is claimed.
- Constant folding runs on the host. Its `int` arithmetic is taken to wrap and its shift amounts to be reduced modulo 32;
  `FoldSound` holds wherever evaluation is defined, so nothing depends on that choice.
- Loops are interpreted with fuel, which bounds the turns of each loop. `KernelDiverges` says that a kernel which runs out
  of fuel `n` has not halted after `n` steps, so no fuel means no halt.
- A kernel parameter is the word the host wrote at 0x100 plus its position.
- A lane runs alone. SYNC and NOP do nothing to it, and its R29 is what its thread index reads as.
- Where a full instruction buffer makes the C program exit, the model sets `overflow`, ignores all further output and
  reports failure at the end.
- The side conditions on source programs are predicates on the syntax tree: `CleanProgram` asks that no temporary a callee
  uses is live across its call (`SafeExpr`) and that literals fit 16 bits (`LitsFit`). An operand may be held across a call
  above the temporaries the callee needs.

- The real exponential is any function that turns sums into products and stays within the remainder of its series near zero
  (`IsExponential`). Only exp does; the accuracy theorems are about every such function.

## Where the code and its comments disagree

- `axelcc/src/codegen.c:354-361` and `axelcc/src/sema.h:6-7` say that evaluating all arguments into temporaries first
  makes nested calls safe. Callees use the same temporaries: `OperandLost` gives a family of programs that lose an operand
  and says when the result happens to be right. `CallSpares` says which temporaries survive every call of every func,
  `SurvivesPath` which ones survive each single run, exactly; `SurvivesExactly` and `OperandExact` turn that into a condition on
  the source for funcs without branches.
- `axelcc/src/codegen.c:441-443` says the stored flags are never 000. They are when a block starts
  (`Src/pc/pc.sv:26-31`); what holds is that they are not 000 whenever a branch looks at them (`BranchesAfterCompare`).
- `axelcc/src/codegen.c:638-671`: a kernel that ends by `return expr;` is accepted, and its SRET finds no caller; the lane
  starts the kernel again (`KernelRestarts`). `ReturnOneRestarts` is such a program, which never halts; `KernelHalts` says
  that a terminating kernel without that statement does.
- `axelcc/src/codegen.c:260-262` rejects comparisons outside the conditions of `if`s, which `axelcc/src/sema.c:80-128`
  accepts (`ComparisonRejected`); `CompileExact` has the exact condition.
- `Src/Top_level_GPU/tests/dscnn_reference.py:31-37` says that the kernels' single-stage rescale and the two-stage one differ by at
  most one. For the multipliers the two derivations give for one real number that is false of large accumulators: `TwoApart` is
  a layer and an accumulator with 227 against 229. `DerivedWithinOne` says up to which accumulators it holds, `RequantByDistance`
  relates the difference to the distance of any two multipliers.
- `Src/Top_level_GPU/tests/tflite_fixedpoint.py:279` asserts the range of an exponent; rows of up to 511 elements meet it
  and 512 to 4095 equal elements do not (`UpTo511`, `AcceptedExactly`). From 8192 equal elements on the assertion passes
  again, on a sum that has wrapped (`EqualRows`).

## Model

| member | source | states |
|---|---|---|
| Isa.DecodeEncode | axelcc/src/emit.c:26-92 | every instruction the compiler can emit is recovered by the decoder's field extraction from its packed word, signed offsets and immediates included |
| Isa.SignExtendMod | Src/pc/pc.sv:38-39 | cutting a signed value to a field and sign-extending it gives the value back |
| Rtl.AluIsTable | Src/alu/alu.sv:21-56 | for every opcode that is not bitwise and all operand words the lane computes what the ALU's cases say, the opcodes written as their numbers |
| Rtl.BitwiseIsTable | Src/alu/alu.sv:28-30 | AND, OR and XOR bit by bit, by their numbers |
| Rtl.FlagsAreTable | Src/alu/alu.sv:34-42 | a comparison sets 4, 2 or 1 as signed words compare |
| Rtl.DecodeIsTable | Src/decoder/decoder.sv:28-106 | every word decodes as the opcode numbers and bit slices say |
| Rtl.EncodeIsTable | axelcc/src/emit.c:26-93 | every instruction is packed with its literal number and shifts |
| Rtl.SyncField | axelcc/src/emit.c:68-88 | in branches and calls bits 22 to 12 are the offset modulo 2^11 and bits 11 to 0 the offset modulo 2^12 |
| Rtl.OpcodesAreTable | axelcc/src/emit.c:43-66 | for each operator the literal number and operand order of its instruction; a move is number 1 with R0, or nothing |
| Rtl.MasksAreTable | axelcc/src/codegen.c:114-124 | the mask of each comparison as a number |
| Rtl.MaskBits | Src/pc/pc.sv:38-38 | a mask matches just if it shares a bit with the flags |
| Rtl.PcIsTable | Src/pc/pc.sv:32-43 | the next pc, the call stack and the flags after every instruction but RET |
| Rtl.RegistersAreTable | Src/registers/register_file.sv:27-49 | R0 reads zero, R29 to R31 the identities, and only R1 to R28 can be written |
| Rtl.DataIsTable | Src/core/core.sv:276-280 | where results, loads, stores and constants go |
| Rtl.Conventions | axelcc/src/sema.h:5-24 | the numbers of the register convention, the parameter block and the buffer |
| Lang.DivAgreesIff | Src/alu/tests/common.py:77-79 | unsigned division of two words is C division of the values just on the operand pairs listed in DivSafe |
| Lang.ModAgreesIff | Src/alu/tests/common.py:82-84 | the unsigned remainder is the C remainder just on the operand pairs listed in ModSafe |
| Folding.DefinedExactly | axelcc/src/codegen.c:249-259 | an arithmetic operator has a value just where C gives one and the machine's unsigned division comes to it |
| Folding.FoldsExactly | axelcc/src/codegen.c:155-201 | an expression folds just if it is a tree of literals under arithmetic operators without a zero divisor |
| Folding.OneConstant | axelcc/src/codegen.c:224-240 | an operator becomes a single constant just if it folds to a value from 0 to 65535 |
| Lang.IndexOfFunc | axelcc/src/sema.c:33-37 | the search finds the first func of a name, or their number |
| Operators.AluCorrect | axelcc/src/codegen.c:249-259 | the opcode chosen for each operator makes the ALU compute the word of the operator's C value, for all operands on which it has one |
| Operators.CompareCorrect | axelcc/src/codegen.c:114-124 | after CMP the mask chosen for a comparison matches the flags just if the comparison holds |
| Simulation.FoldSound | axelcc/src/codegen.c:155-201 | a folded value is the value of the expression wherever it has one, and evaluating it leaves memory alone |
| Lowering.LowerShape | axelcc/src/codegen.c:69-104 | the result of an expression is in a variable's register or in the last temporary held; how many are held is a structural count |
| Sema.LookupNumbered | axelcc/src/sema.c:8-13 | in a table that numbers its registers, exactly the bound names are found, each at its own register |
| Sema.AddKeeps | axelcc/src/sema.c:15-30 | adding a name takes the next register and keeps every earlier lookup and the numbering |
| Sema.AddAllKeeps | axelcc/src/sema.c:238-241 | parameters get consecutive registers in their order |
| Sema.CheckStmtKeeps | axelcc/src/sema.c:150-187 | an accepted statement only adds names, keeps the table numbered, and uses only names and funcs that are declared in the result |
| Sema.CheckBlockKeeps | axelcc/src/sema.c:199-204 | the same for a list of statements |
| Sema.CheckBodyKeeps | axelcc/src/sema.c:229-279 | an accepted body has one register per name from the window's first to its last, parameters first |
| Checker.KernelSyms.SymsLookup | axelcc/src/sema.c:8-13 | the loop returns the register of the first binding of the name, or -1 |
| Checker.KernelSyms.SymsAdd | axelcc/src/sema.c:15-30 | a duplicate or a full window leaves the table alone; otherwise the table is the one with the name at the next register, and the 29 entries are never exceeded |
| Checker.KernelSyms.CheckExpr | axelcc/src/sema.c:80-128 | an error just if a name or func is undeclared or a call has the wrong number of arguments |
| Checker.KernelSyms.CheckExprs | axelcc/src/sema.c:121-124 | the same for operands, all of which are visited |
| Checker.KernelSyms.CheckIfCond | axelcc/src/sema.c:131-146 | an error unless the condition is a comparison of accepted operands |
| Checker.KernelSyms.CheckOne | axelcc/src/sema.c:150-187 | an error just if the statement is rejected, otherwise the table becomes the one its check computes |
| Checker.KernelSyms.CheckList | axelcc/src/sema.c:199-204 | the same for a list, although checking goes on behind an error |
| Checker.KernelSyms.CheckWhole | axelcc/src/sema.c:272-279 | the same for parameters and body together |
| Checker.SemaCheck | axelcc/src/sema.c:213-283 | an error just if some func or kernel is rejected, otherwise the tables of all of them in order |
| Acceptance.StmtIs | axelcc/src/sema.c:150-187 | a statement is accepted just if its names are declared before use and once, fit the window, calls have their arity, conditions are comparisons, and no `if` stands in an arm of another at any depth |
| Acceptance.AcceptedExactly | axelcc/src/sema.c:213-283 | a program is accepted just if all of that holds of every func and kernel, funcs call nothing and end in `return expr;`; the tables are the names in order of declaration from R14 or R1 on |
| Compiler.AcceptedFunc | axelcc/src/sema.c:222-259 | an accepted func keeps to R14..R18, its parameters from R14 on, contains no call and ends in a returned value |
| Compiler.AcceptedKernel | axelcc/src/sema.c:261-279 | an accepted kernel keeps to R1..R13 if there are funcs and to R1..R19 otherwise, its parameters from R1 on |
| Emit.InstrBuf.Push | axelcc/src/emit.c:7-14 | the packed word goes behind the others, or the buffer overflows just if 256 are there |
| Emit.InstrBuf.Patch | axelcc/src/emit.c:16-18 | one word is replaced, all others stay |
| Codegen.CGen.AllocTmp | axelcc/src/codegen.c:97-104 | the next temporary below R28, or an error |
| Codegen.CGen.EmitMovs | axelcc/src/codegen.c:366-367 | the arguments' moves into the func window, in order |
| Codegen.CGen.EmitCall | axelcc/src/codegen.c:370-372 | a placeholder call is emitted and recorded |
| Codegen.CGen.EvalExpr | axelcc/src/codegen.c:205-383 | the words appended, the result register and the next free temporary are those of the lowering; an error just if there is none or no room |
| Codegen.CGen.EvalOp | axelcc/src/codegen.c:224-291 | folding where the value fits, otherwise operands, reclaimed temporaries, a destination that may alias them |
| Codegen.CGen.EvalCall | axelcc/src/codegen.c:353-377 | arguments, moves, placeholder call, move of the result |
| Codegen.CGen.EvalArgs | axelcc/src/codegen.c:364-365 | operands one after the other, each keeping what it holds |
| Codegen.CGen.EmitStmt | axelcc/src/codegen.c:388-578 | the words appended are those of the statement's lowering |
| Codegen.CGen.EmitIf | axelcc/src/codegen.c:452-504 | the two placeholders are patched to the lengths of the bodies that were emitted between them |
| Codegen.CGen.EmitFor | axelcc/src/codegen.c:525-566 | exit and back branches are patched to the end and to the test of the loop |
| Codegen.CGen.EmitList | axelcc/src/codegen.c:632-635 | statements in order, none behind a failed one |
| Codegen.CGen.EmitParams | axelcc/src/codegen.c:660-663 | one load per parameter from its word of the parameter block |
| Codegen.CGen.EmitKernelEnd | axelcc/src/codegen.c:668-671 | looking at the last word's opcode adds a RET just if the last instruction is none |
| Codegen.CGen.EmitFuncs | axelcc/src/codegen.c:678-685 | the bodies of all funcs with their start positions |
| Codegen.CGen.PatchCalls | axelcc/src/codegen.c:690-702 | every recorded call, and nothing else, is pointed at its func; an unknown func is an error |
| Codegen.SitesFacts | axelcc/src/codegen.c:53-61 | the recorded sites are exactly the positions of the calls |
| Codegen.IfPatched | axelcc/src/codegen.c:496-502 | placeholders patched with the two lengths make the code of the if |
| Codegen.LoopPatched | axelcc/src/codegen.c:558-564 | placeholders patched with the two distances make the code of the loop |
| Codegen.Generate | axelcc/src/codegen.c:638-706 | for an accepted program: an error just if some body cannot be lowered or 256 words do not suffice, otherwise the encoded linked program |
| Codegen.CompileProgram | axelcc/src/main.c:107-122 | check and generation together |
| Layout.IfTidy | axelcc/src/codegen.c:496-502 | the branches of an if land inside it or right behind it |
| Layout.LoopTidy | axelcc/src/codegen.c:556-564 | so do those of a loop |
| Layout.BlockTidy | axelcc/src/codegen.c:632-635 | in the code of any body all instructions can be encoded, branches stay inside, and none leaves at the end unless control may fall off there |
| Compiler.KernelRegion | axelcc/src/codegen.c:668-676 | the kernel's code ends in RET or SRET and its branches stay inside it |
| Compiler.FuncRegion | axelcc/src/codegen.c:673-685 | so for each func, which also contains no call |
| Compiler.CodePlaced | axelcc/src/codegen.c:665-702 | the kernel lies at 0 and each func at its recorded start, calls resolved |
| Compiler.WordsDecode | axelcc/src/codegen.c:690-702 | the emitted 32-bit words decode to the linked program, every branch and call distance included |
| Preservation.SimExpr | axelcc/src/codegen.c:205-383 | an expression's code reaches its value in the result register with the interpreter's memory, and changes no register outside the temporaries it was given (with a call: no register of the caller, and no temporary in use above those the callee needs) |
| Preservation.SimAll | axelcc/src/codegen.c:362-368 | all operands' values are in their registers together at the end |
| Preservation.SimCall | axelcc/src/codegen.c:353-377 | CALL to the linked body and SRET back act as a call by value |
| Preservation.SimIf | axelcc/src/codegen.c:452-504 | the arm the comparison selects is run, and control arrives behind the if |
| Preservation.SimLoop | axelcc/src/codegen.c:535-566 | the loop's code takes the turns the interpreter takes, or runs on as long as its fuel lasts |
| Preservation.SimStmt | axelcc/src/codegen.c:388-578 | every statement's code reaches the interpreter's memory with every variable in its register, halts on return, hands a returned value to the caller, or runs on |
| Preservation.SimBlock | axelcc/src/codegen.c:632-635 | the same for statement lists |
| Correctness.SimParams | axelcc/src/codegen.c:658-663 | each parameter's word ends up in its register |
| Correctness.RetNeverNormal | axelcc/src/codegen.c:667-671 | where code ends in RET the body never ends normally, even if statements without code follow the return |
| Correctness.KernelCorrect | axelcc/src/codegen.c:638-706 | if a clean kernel ends, the lane on the emitted words halts with its memory and every variable's value in its register |
| Correctness.KernelDiverges | axelcc/src/codegen.c:506-566 | if it runs out of fuel n, the lane has not halted after n steps |
| Correctness.KernelRestarts | axelcc/src/codegen.c:570-578 | if it returns a value, the lane comes back to word 0 with the memory it has produced |
| Limits.ReturnOneRestarts | axelcc/src/codegen.c:570-578 | `kernel void k() { return 1; }` is accepted, compiles, is clean, and never halts |
| Correctness.KernelHalts | axelcc/src/codegen.c:570-578 | a clean kernel without `return expr;` that neither runs on nor meets an undefined operation halts with the source's memory |
| Correctness.RestartsForever | axelcc/src/codegen.c:570-578 | a kernel that returns a value from every memory never halts |
| Correctness.HaltsExactly | axelcc/src/codegen.c:570-578 | where every start of a clean kernel is defined, the lane halts just if some start, each on the memory the one before has left, ends without returning a value; it halts with that one's memory |
| Progress.ProgramDefined | axelcc/src/codegen.c:205-578 | a program that sets every name before reading it on every path and uses only operators without gaps is never undefined, on any memory |
| Progress.HaltsUnconditionally | axelcc/src/codegen.c:570-578 | so for it the lane halts just if some start of the kernel ends |
| Safety.RunsStayOnTrack | axelcc/src/codegen.c:673-677 | in every state of every run of every compiled program the pc is in the kernel with an empty call stack, or in a func whose one return address is behind a kernel call of that func |
| Safety.BranchesLand | axelcc/src/codegen.c:690-702 | every decoded branch targets its own body, every decoded call the first word of the func it names, and funcs contain no call |
| Branches.BranchesAfterCompare | axelcc/src/codegen.c:441-447 | whenever a branch is about to be executed the flags hold a comparison's result, so branches meant to be taken are |
| Nesting.IfNested | axelcc/src/codegen.c:449-502 | the branches of an `if` lead from its comparison into exactly one arm and from either arm to the one SYNC behind both, whatever the arms contain |
| Nesting.ProgramNested | axelcc/src/codegen.c:638-702 | the number of `if`s open at each instruction, read off the source, agrees along every control transfer of the whole program: only an `if`'s own branch raises it, only a SYNC lowers it, funcs start at none |
| Nesting.SyncsBalance | axelcc/src/codegen.c:471-487 | at every moment of every run the `if`s entered are the SYNCs executed, the `if`s left by a func return or restart, and the `if`s still open in the body and its caller |
| Nesting.OneSyncPerIf | axelcc/src/codegen.c:471-489 | without a `return` inside an `if`, a lane halted outside funcs has executed exactly one SYNC for every `if` it entered |
| Temporaries.NeedExact | axelcc/src/codegen.c:92-104 | code is generated for an expression just if it has no comparison as an operand and a structural count of temporaries fits below R28; the code then holds exactly the counted ones |
| Temporaries.NeedAllExact | axelcc/src/codegen.c:362-368 | the same for operand lists |
| Temporaries.BlockExact | axelcc/src/codegen.c:388-390 | a body can be lowered just if comparisons are conditions of `if`s only and no statement needs more than eight temporaries |
| Temporaries.CompileExact | axelcc/src/codegen.c:638-706 | an accepted program fails to compile just for a comparison as an operand, for want of temporaries, or for want of instruction words |
| Size.StmtSize | axelcc/src/codegen.c:388-578 | the words of every statement's code, counted on the source |
| Size.CompilesExactly | axelcc/src/codegen.c:638-706 | an accepted program compiles just if no comparison is an operand, eight temporaries suffice and a count on the source is at most 256; the output has that many words |
| Limits.ComparisonRejected | axelcc/src/codegen.c:260-262 | an accepted program that needs one temporary and is rejected for its comparison |
| Temporaries.NeedByDepth | axelcc/src/codegen.c:76-80 | the need of an expression without loads and calls is bounded by its depth, not its size |
| Temporaries.SumNeedsFour | axelcc/src/codegen.c:92-96 | a sum of two or more loads needs exactly four temporaries, however long |
| Footprint.ExprUses | axelcc/src/codegen.c:205-351 | a call-free expression writes exactly the temporaries it needs, each before reading it |
| Footprint.BlockWrites | axelcc/src/codegen.c:388-578 | the temporaries the code of a call-free body writes, with all its branches and loops, are exactly the first ones, as many as its statements need |
| Survival.FuncWrites | axelcc/src/codegen.c:678-685 | so for every func of every compiled program |
| Confinement.RunConfined | axelcc/src/codegen.c:673-685 | a run inside a func's body, up to and including its return, changes no register the body does not write |
| Survival.CallSpares | axelcc/src/codegen.c:353-377 | in every run of every compiled program from entering a func to leaving it, the temporaries above those it needs keep their contents |
| Survival.SurvivesExactly | axelcc/src/codegen.c:354-361 | a caller's temporary keeps every content across a call of a straight func just if the func needs no temporary that far up |
| Survival.OperandExact | axelcc/src/codegen.c:354-361 | so the condition of KernelCorrect on a held operand is exact for straight funcs |
| Forgetting.BlockPrepared | axelcc/src/codegen.c:388-578 | in the code of any call-free body a temporary is read only at positions that control reaches behind a write of it, on every path |
| Forgetting.RunForgets | axelcc/src/codegen.c:354-361 | two runs through a func that differ in a temporary differ in nothing else until one writes it, and not at all from then on |
| Forgetting.SurvivesPath | axelcc/src/codegen.c:354-361 | for every func of every compiled program and every run through it, a caller's temporary keeps every content just if the run executes no instruction that writes it |
| Limits.OperandLost | axelcc/src/codegen.c:354-361 | c + g(d) compiles and stores 2(d + 1) where g adds one, which is the sum only for c = d + 1 |
| Limits.IdentityClean | axelcc/src/codegen.c:354-361 | the same sum meets the conditions of KernelCorrect where g needs no temporary |
| Limits.LiteralExact | axelcc/src/codegen.c:210-214 | a literal reaches its register just if it is from 0 to 65535 |
| Grammar.ExprPrinted | axelcc/src/parser.c:65-207 | parsing the printed tokens of any expression gives the expression and consumes exactly them |
| Grammar.ParserOnto | axelcc/src/parser.c:65-207 | the parser's trees are exactly those in which every operator has its operands |
| Grammar.MulPrinted | axelcc/src/parser.c:91-106 | behind a printed factor the loop over factors goes on, associating to the left |
| Grammar.AddPrinted | axelcc/src/parser.c:81-89 | the same for summands |
| Grammar.ListPrinted | axelcc/src/parser.c:134-148 | call arguments are recovered in order |
| Spelling.ExprExactly | axelcc/src/parser.c:65-207 | tokens parse to an expression just if they spell it: the grammar's levels, parentheses anywhere, a comma before a call's parenthesis |
| ProgramGrammar.StmtPrinted | axelcc/src/parser.c:264-292 | every statement is recovered from its tokens (`return`: lines 300-311) |
| ProgramGrammar.ProgramPrinted | axelcc/src/parser.c:392-413 | every program is recovered from its tokens |
| ProgramSpelling.ReadStmt | axelcc/src/parser.c:211-311 | the tokens of any spelling of a statement parse to it |
| ProgramSpelling.FoundStmt | axelcc/src/parser.c:211-311 | tokens that parse to a statement are a spelling of it followed by the rest, so a loop with another comparison than `<` is rejected |
| ProgramSpelling.ProgramExactly | axelcc/src/parser.c:332-413 | tokens parse to a program just if they spell its kernels and funcs in some order, up to the end of the file |
| Parser.TokenParser.ParseExpression | axelcc/src/parser.c:65-79 | the method returns the grammar's tree and leaves the tokens behind it, or reports an error where the grammar has none |
| Parser.TokenParser.ParseSum | axelcc/src/parser.c:81-89 | the same for sums |
| Parser.TokenParser.ParseProduct | axelcc/src/parser.c:91-106 | the same for products |
| Parser.TokenParser.ParsePrefix | axelcc/src/parser.c:108-115 | the same for prefix operators |
| Parser.TokenParser.ParseAtom | axelcc/src/parser.c:150-207 | the same for primaries |
| Parser.TokenParser.ParseArgs | axelcc/src/parser.c:117-127 | a fixed number of operands |
| Parser.TokenParser.ParseCallArgs | axelcc/src/parser.c:134-148 | arguments up to the parenthesis, a comma before it allowed |
| Parser.TokenParser.ParseStatement | axelcc/src/parser.c:264-292 | the same for statements (`return`: lines 300-311); a faulty one still consumes a token |
| Parser.TokenParser.ParseIfStmt | axelcc/src/parser.c:211-229 | condition, block, and a block behind else if there is one |
| Parser.TokenParser.ParseForStmt | axelcc/src/parser.c:231-262 | the one loop form, its variable checked in all three places |
| Parser.TokenParser.ParseStmtList | axelcc/src/parser.c:316-329 | statements up to the brace; recovery behind an error never turns it into success |
| Parser.TokenParser.ParseParameters | axelcc/src/parser.c:340-350 | parameter names in order |
| Parser.TokenParser.ParseFunc | axelcc/src/parser.c:365-390 | name, parameters, body |
| Parser.Parse | axelcc/src/parser.c:392-413 | the whole parser returns the grammar's program, or nothing |
| Driver.CompileTokens | axelcc/src/main.c:95-122 | tokens to words, or an error just where a stage has one |
| Driver.PrintedProgramRuns | axelcc/src/main.c:95-122 | the tokens of a clean program that ends give words on which the lane ends with the program's memory |
| FixedPoint.SrdhmExact | Src/Top_level_GPU/tests/tflite_fixedpoint.py:55-62 | the product over 2^31 rounded to nearest, ties upwards, but for the one saturating pair |
| FixedPoint.RdpotExact | Src/Top_level_GPU/tests/tflite_fixedpoint.py:65-76 | division by a power of two rounded to nearest, ties away from zero |
| FixedPoint.SrmbpotLeft | Src/Top_level_GPU/tests/tflite_fixedpoint.py:86-91 | the product with a power of two clamped to a word |
| FixedPoint.SrmbpotRight | Src/Top_level_GPU/tests/tflite_fixedpoint.py:84-85 | a negative exponent rounds the quotient |
| FixedPoint.HalfSumExact | Src/Top_level_GPU/tests/tflite_fixedpoint.py:99-103 | half the sum rounded away from zero, without wrapping |
| FixedPoint.SingleStageRounds | Src/Top_level_GPU/tests/dscnn_reference.py:488-492 | product, half unit and shift round to nearest, ties upwards |
| FixedPoint.TwoStageNear | Src/Top_level_GPU/tests/tflite_fixedpoint.py:211-220 | the two-stage rescale is within one unit of the exact quotient, saturation included |
| FixedPoint.RequantDrift | Src/Top_level_GPU/tests/dscnn_reference.py:488-492 | for every accumulator and any two multipliers the single-stage and the two-stage rescale differ by the accumulator times the distance of the multipliers, give or take one and a half |
| FixedPoint.RequantByDistance | Src/Top_level_GPU/tests/dscnn_reference.py:31-37 | they differ by at most one, also after zero point and clamp, where that product is below one half, and by more wherever it exceeds five halves |
| FixedPoint.RequantRounded | Src/Top_level_GPU/tests/dscnn_reference.py:31-37 | they differ by at most one if both multipliers are nearest to one real number in their own precision and the accumulator is small beside the two precisions |
| FixedPoint.RequantWithinOne | Src/Top_level_GPU/tests/dscnn_reference.py:31-37 | if the two multipliers are the same fraction, they differ by at most one for every accumulator |
| Reciprocal.OneOverOnePlusX | Src/Top_level_GPU/tests/tflite_fixedpoint.py:161-174 | the loop computes three Newton steps from the linear guess |
| Reciprocal.ConstantsNearest | Src/Top_level_GPU/tests/tflite_fixedpoint.py:116-117 | the constants are 48/17 and 32/17 rounded to 29 bits |
| Reciprocal.HalfDenominatorExact | Src/Top_level_GPU/tests/tflite_fixedpoint.py:163-163 | the half denominator is from one half up to one |
| Reciprocal.FirstResidual | Src/Top_level_GPU/tests/tflite_fixedpoint.py:164-164 | the guess does not wrap and is off by at most a seventeenth |
| Reciprocal.StepResidual | Src/Top_level_GPU/tests/tflite_fixedpoint.py:165-168 | a step neither wraps nor saturates, and squares the residual up to three units of 2^-29 |
| Reciprocal.ReciprocalConverges | Src/Top_level_GPU/tests/tflite_fixedpoint.py:161-168 | for every denominator all three steps are exact but for rounding, and the product ends within four units of 2^-29 of one |
| Reciprocal.ResultClose | Src/Top_level_GPU/tests/tflite_fixedpoint.py:169-174 | the result is twice the last iterate, saturated, positive, and its product with the half denominator within eight units of 2^-30 of one half for every input, saturated or not |
| Exponential.ExpOnNegativeValues | Src/Top_level_GPU/tests/tflite_fixedpoint.py:134-158 | the loop over the barrel computes the specified product |
| Exponential.Reduction | Src/Top_level_GPU/tests/tflite_fixedpoint.py:143-148 | the argument splits into a part within a quarter and a whole number of quarters without wrapping or saturating |
| Exponential.IntervalExact | Src/Top_level_GPU/tests/tflite_fixedpoint.py:120-131 | on its interval no sum of the polynomial wraps and its value is a positive fraction |
| Exponential.ExpRange | Src/Top_level_GPU/tests/tflite_fixedpoint.py:134-158 | for every word at most zero the result is from 0 to 2^31 - 1 |
| Exponential.BarrelShrinks | Src/Top_level_GPU/tests/tflite_fixedpoint.py:150-154 | no stage of the barrel increases the result or makes it negative |
| Exponential.BarrelCoversArgument | Src/Top_level_GPU/tests/tflite_fixedpoint.py:148-154 | below zero the argument is its part within a quarter less the sum of exactly the powers the barrel multiplies in |
| ExponentialAccuracy.PolynomialWithin | Src/Top_level_GPU/tests/tflite_fixedpoint.py:120-131 | the polynomial is within 1.6 units of 2^-31 of its constant times 1 + x + x^2/2 + x^3/6 + x^4/24 |
| ExponentialAccuracy.ConstantsNearest | Src/Top_level_GPU/tests/tflite_fixedpoint.py:109-114 | the constant term and all seven factors are the real exponentials rounded to 31 bits |
| ExponentialAccuracy.ReductionOf | Src/Top_level_GPU/tests/tflite_fixedpoint.py:143-148 | the reduction for every number of integer bits up to five |
| ExponentialAccuracy.StageDigit | Src/Top_level_GPU/tests/tflite_fixedpoint.py:150-154 | a stage applies just if its binary digit of the number of quarters is set, for every number of integer bits |
| ExponentialAccuracy.ExpAccurate | Src/Top_level_GPU/tests/tflite_fixedpoint.py:134-158 | for every argument at most zero and every number of integer bits up to five the result is within 496 units of 2^-31 of the real exponential |
| ExponentialAccuracy.SumToProduct | Src/Top_level_GPU/tests/tflite_fixedpoint.py:134-158 | the rounded product of two results is within 1494 units of the result of the sum of their arguments |
| Softmax.SoftmaxInt8 | Src/Top_level_GPU/tests/tflite_fixedpoint.py:250-294 | the three loops return the specified outputs, or nothing for an empty row or a failed assertion |
| Softmax.ScaledRange | Src/Top_level_GPU/tests/tflite_fixedpoint.py:269-273 | a difference that is counted can be shifted without wrapping and scales to an argument at most zero |
| Softmax.SumRange | Src/Top_level_GPU/tests/tflite_fixedpoint.py:267-275 | up to 4095 elements the sum does not wrap and is at least 2^19 |
| Softmax.NormalisedRange | Src/Top_level_GPU/tests/tflite_fixedpoint.py:177-185 | normalising to the leading bit gives an argument of the reciprocal from zero up to one |
| Softmax.ExponentRange | Src/Top_level_GPU/tests/tflite_fixedpoint.py:277-279 | the exponent is the bit length of the sum plus three |
| Softmax.AcceptedExactly | Src/Top_level_GPU/tests/tflite_fixedpoint.py:277-279 | up to 4095 elements the assertion holds just if the exponentials sum to less than 2^28 |
| Softmax.UpTo511 | Src/Top_level_GPU/tests/tflite_fixedpoint.py:263-279 | no row of up to 511 elements fails it, whatever the values and the scaling; 512 to 4095 equal elements always do |
| Softmax.AcceptedByWord | Src/Top_level_GPU/tests/tflite_fixedpoint.py:267-279 | for rows of any length the assertion holds just if the wrapped sum is below 2^28 |
| Softmax.EqualRows | Src/Top_level_GPU/tests/tflite_fixedpoint.py:267-279 | equal elements pass it just if their number modulo 8192 is below 512 |
| Softmax.OutputMono | Src/Top_level_GPU/tests/tflite_fixedpoint.py:289-291 | a larger exponential never gets the smaller output |
| ExponentialOrder.ExpMono | Src/Top_level_GPU/tests/tflite_fixedpoint.py:134-158 | over all words at most zero a larger argument never gets a smaller exponential, within quarters and across their boundaries |
| Softmax.OrderKept | Src/Top_level_GPU/tests/tflite_fixedpoint.py:281-294 | in rows of up to 511 elements a larger input never gets a smaller output |
| Softmax.ArgMaxKept | Src/Top_level_GPU/tests/tflite_fixedpoint.py:281-294 | so the largest input gets the largest output |
| Conservation.OutputIsShare | Src/Top_level_GPU/tests/tflite_fixedpoint.py:289-291 | an output is its element's share of 256 less 128, clamped |
| Conservation.SharesConserved | Src/Top_level_GPU/tests/tflite_fixedpoint.py:263-294 | in rows of up to 511 elements the shares sum to 256 within half the number of elements |
| Conservation.CountedExactly | Src/Top_level_GPU/tests/tflite_fixedpoint.py:223-230 | an element is counted just if its shifted difference to the maximum is at least -31 with 26 fractional bits |
| Conservation.EveryOutput | Src/Top_level_GPU/tests/tflite_fixedpoint.py:281-294 | every output, of counted and uncounted elements alike, is the clamped share of the element's own exponential |
| Conservation.ShareOfElement | Src/Top_level_GPU/tests/tflite_fixedpoint.py:263-294 | in rows of up to 511 elements each share is 256 times the exponential over the sum, within half a unit and a little |
| SoftmaxAccuracy.TrueExpNear | Src/Top_level_GPU/tests/tflite_fixedpoint.py:284-288 | each element's exponential is within 560 units of 2^-31 of the real one of its real argument |
| SoftmaxAccuracy.SoftmaxAccurate | Src/Top_level_GPU/tests/tflite_fixedpoint.py:250-294 | in rows of up to 511 elements each output is a share less 128, clamped, and that share is within two thirds of a step of 256 times the real softmax of the row |
| Rows.RowMax | Src/Top_level_GPU/tests/tflite_fixedpoint.py:265-265 | the loop returns an element that none exceeds |
| Packing.UnpackPack | Src/Top_level_GPU/tests/dscnn_reference.py:511-518 | unpacking inverts packing on int8 lanes |
| Packing.PackUnpack | Src/Top_level_GPU/tests/dscnn_reference.py:215-221 | packing inverts unpacking on words |
| Packing.PackedBytes | Src/Top_level_GPU/tests/dscnn_reference.py:215-221 | byte k of the packed word is lane k modulo 256, the lowest first |
| Packing.Dot4OfPacked | Src/alu/tests/common.py:68-74 | the packed dot product adds the four lane products to the accumulator modulo 2^32 |
| Packing.ChunkedIsFlat | Src/Top_level_GPU/tests/dscnn_reference.py:578-600 | accumulating word by word is the flat sum of products modulo 2^32, for any whole number of words |
| Packing.Pack4Taps | Src/Top_level_GPU/tests/dscnn_reference.py:224-234 | the words of all channels in order, or an error for a channel that does not fill whole words |
| Packing.UnpackAllPacked | Src/Top_level_GPU/tests/dscnn_reference.py:588-591 | unpacking all words gives the taps back |
| Convolution.WindowsFit | Src/Top_level_GPU/tests/dscnn_reference.py:283-289 | with SAME padding every window lies in the padded input, for all sizes and strides, and the odd cell is behind |
| Convolution.SameWindowsInside | Src/Top_level_GPU/tests/dscnn_reference.py:412-420 | so in two dimensions for every output position |
| Convolution.LeastPadding | Src/Top_level_GPU/tests/dscnn_reference.py:283-289 | no smaller input holds all windows |
| Convolution.PadPlane | Src/Top_level_GPU/tests/dscnn_reference.py:495-508 | each cell of the padded plane is the input's where they overlap and the zero point elsewhere |
| Convolution.FoldPreservesConvolution | Src/Top_level_GPU/tests/dscnn_reference.py:191-203 | folded bias plus padded taps is the bias plus the in-range taps less the zero point |
| Convolution.AccWithinBound | Src/Top_level_GPU/tests/dscnn_reference.py:243-248 | for int8 inputs and zero point the accumulator less its bias is within the bound |
| Convolution.RequantisedIs | Src/Top_level_GPU/tests/dscnn_reference.py:488-492 | the rescaled value is the clamped sum of the zero point and the nearest integer to acc * mult / 2^shift, the upper one of two |
| Convolution.RunWindow | Src/Top_level_GPU/tests/dscnn_reference.py:541-545 | the loop over the taps accumulates the window from the folded bias on and requantises it |
| Convolution.RunChannel | Src/Top_level_GPU/tests/dscnn_reference.py:538-546 | every output position gets the value of its own window |
| Layers.RunStem | Src/Top_level_GPU/tests/dscnn_reference.py:521-547 | every output is the layer's bias plus the cells (r*stride + t/3 - top, c*stride + t%3 - left) of the unpadded input less the zero point times weight t, where they exist, requantised to nearest |
| Layers.RunDepthwise | Src/Top_level_GPU/tests/dscnn_reference.py:550-575 | the same with one input plane per channel |
| Layers.RunPacked | Src/Top_level_GPU/tests/dscnn_reference.py:616-624 | one output of a packed layer is the bias plus the weighted inputs less the zero point, requantised to nearest |
| Layers.RunFc | Src/Top_level_GPU/tests/dscnn_reference.py:610-625 | every output of a fully connected layer, read from its slice of the packed words, is the layer's own |
| Layers.RunPointwise | Src/Top_level_GPU/tests/dscnn_reference.py:578-600 | so for every output channel of a pointwise layer at every pixel |
| Layers.FoldedDot | Src/Top_level_GPU/tests/dscnn_reference.py:191-203 | the folded bias works for plain dot products too |
| Layers.PackedAccumulator | Src/Top_level_GPU/tests/dscnn_reference.py:578-600 | the RTL's packed accumulation gives the same accumulator modulo 2^32 |
| Layers.DeriveMultShift | Src/Top_level_GPU/tests/dscnn_reference.py:251-265 | the largest shift whose rounded multiplier fits is found, or an error just if there is none |
| Layers.FitsExactly | Src/Top_level_GPU/tests/dscnn_reference.py:259-259 | a shift fits just if its multiplier is a word and so is its product with every accumulator up to the bound |
| Layers.RoundEvenExactly | Src/Top_level_GPU/tests/dscnn_reference.py:258-258 | the multiplier is the one nearest integer, the even one of two |
| Layers.BoundAttained | Src/Top_level_GPU/tests/dscnn_reference.py:243-248 | for weights of one sign the accumulator bound is reached |
| Layers.ProductInRange | Src/Top_level_GPU/tests/dscnn_reference.py:251-265 | with it the product of multiplier and accumulator less bias stays below 2^31 in magnitude |
| Layers.DotProductInRange | Src/Top_level_GPU/tests/dscnn_reference.py:251-265 | the same for pointwise and fully connected layers |
| Layers.MultiplierNear | Src/Top_level_GPU/tests/dscnn_reference.py:258-258 | the multiplier is the nearest integer for its shift |
| Layers.QuantizedNearest | Src/Top_level_GPU/tests/tflite_fixedpoint.py:190-208 | the two-stage multiplier of a real number below one has 31 bits and is a nearest one, also where it rounds up to 2^31 and is halved |
| Layers.DerivedWithinOne | Src/Top_level_GPU/tests/dscnn_reference.py:251-265 | the multipliers both derivations give for one real number rescale to outputs at most one apart, as long as the accumulator is small beside the two precisions |
| Layers.TwoApart | Src/Top_level_GPU/tests/dscnn_reference.py:31-37 | for 7/27 and 65536 unit taps the derivations give 66 at shift 8 and 1113510040 at shift -1, and the accumulator 881 becomes 227 and 229 |
| LutSoftmax.RowIsAlu | Src/Top_level_GPU/tests/attn_reference.py:7-25 | the reference's table and the ALU's, written down separately, agree entry by entry |
| LutSoftmax.TableIsAlu | Src/Top_level_GPU/tests/attn_reference.py:28-31 | on int8 values the reference's lookup is the ALU's EXP8 |
| LutSoftmax.TableExpMono | Src/Top_level_GPU/tests/attn_reference.py:7-31 | the table never falls and stays from 17 to 127 |
| TableAccuracy.TableNearest | Src/alu/alu.sv:59-65 | every entry for arguments from -128 to 0 is 127 exp(x / 64) rounded to the nearest integer |
| LutSoftmax.ArgumentExactly | Src/Top_level_GPU/tests/dscnn_reference.py:638-639 | the table's argument is the number of whole steps of 2^expShift from the maximum to the logit, at least -128 |
| LutSoftmax.WeightOfElement | Src/Top_level_GPU/tests/dscnn_reference.py:638-641 | each weight is the whole part of 256 times its exponential over the total |
| LutSoftmax.RunSoftmax | Src/Top_level_GPU/tests/dscnn_reference.py:627-641 | the passes return the weights plus the zero point, or nothing for an empty row |
| LutSoftmax.WeightsConserved | Src/Top_level_GPU/tests/dscnn_reference.py:639-641 | the weights are from 0 to 256 and sum to at most 256 and more than 256 less their number |
| LutSoftmax.OrderKept | Src/Top_level_GPU/tests/dscnn_reference.py:638-641 | a larger logit never gets the smaller weight |
| Attention.ScoreExact | Src/Top_level_GPU/tests/attn_reference.py:36-40 | neither shift by eight loses anything: scores are 256 times dot products, outputs dot products |
| Attention.ReferenceAttention | Src/Top_level_GPU/tests/attn_reference.py:34-61 | scores are 256 times the dot products of queries and keys, weights the softmax of each row of scores at shift 2, outputs the dot products of weights and columns of values |
| Attention.OneHot | Src/Top_level_GPU/tests/attn_reference.py:56-60 | all the weight on one value gives 256 times that value |
| Attention.AttentionAverages | Src/Top_level_GPU/tests/attn_reference.py:42-60 | outputs stay between 256 times a lower and an upper bound of the values around zero |
| Attention.AttentionOfConstant | Src/Top_level_GPU/tests/attn_reference.py:42-60 | equal values come out as 256 times the value, short of it by less than their number times the value |

## Left out

- KernelCorrect: nothing is said where the interpreter is stuck: a division outside DivSafe, a shift amount outside 0..31, a variable read before it is assigned on the path taken, or a func that leaves by a bare `return;`.
- KernelCorrect: its condition on operands held across calls looks at all of a callee's code; where a callee writes a temporary only on paths not taken, the operand survives without being allowed for.
- SurvivesExactly: its condition on the source is for funcs without `if` and `for`; with them SurvivesPath is exact run by run, and which runs occur is a question about the values.
- OperandExact: the same.
- RequantByDistance: between one half and five halves the difference depends on how the accumulator's own remainders round, and is not described.
- ExpMono: the order of the results is proved for five integer bits, which is what the softmax uses; ExpAccurate is for all formats.
- SoftmaxAccurate: for rows of more than 511 elements the code fails its own assertion on some rows, and nothing is said of the others.
- ProgramDefined: its condition on the source allows no division or remainder, and shifts by a literal amount only; others may be defined too.
- WeightOfElement: the weights are not compared with a real softmax, since the code rounds every argument down and cuts it off at -128.
- ReciprocalConverges: the error is bounded in units of the residual, not compared with a real quotient.
- DeriveMultShift: the real multiplier is a fraction; scaling a double by a power of two is exact, and Python's rounding of it is the rounding of that fraction.
- QuantizedNearest: so here; real multipliers of one or more, those that round up to one, and those below 2^-32, which the code replaces by zero, are not covered.
- SoftmaxInt8: the multiplier and the shift derived from floating-point scales are inputs, with the ranges the theorems name.
- `mmio_matmul` and its polling loop depend on the accelerator's behaviour and are not in the syntax tree.
- Divergence of lanes, the warp stack, the scheduler, the memory controller and the fetcher: one lane is modelled on its own.
- Lexing, source positions, error messages, memory allocation, the tree printer and the output files.
- Host overflow and shifts out of range in constant folding are undefined in C and taken to wrap; only the defined cases matter to the theorems.
- The derivation of scales, the layer tables, WAV and model loading, and max pooling.
- The second and further kernels of a program are checked but, as in the compiler, not compiled.
