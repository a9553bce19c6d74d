/** The instruction words of the lane: bit layout, ALU, and one-lane execution. */
module Isa {
  import opened Words

  // Opcodes, as in the table of the ALU and of the decoder.
  const OP_NOP := 0x00
  const OP_ADD := 0x01
  const OP_SUB := 0x02
  const OP_MUL := 0x03
  const OP_DIV := 0x04
  const OP_MOD := 0x05
  const OP_SHL := 0x06
  const OP_SHR := 0x07
  const OP_AND := 0x08
  const OP_OR := 0x09
  const OP_XOR := 0x0A
  const OP_NOT := 0x0B
  const OP_FMA := 0x0C
  const OP_CMP := 0x0D
  const OP_BRNZP := 0x0E
  const OP_LDR := 0x0F
  const OP_STR := 0x10
  const OP_CONST := 0x11
  const OP_RET := 0x12
  const OP_IMUL := 0x13
  const OP_SAR := 0x14
  const OP_SYNC := 0x15
  const OP_DOT4 := 0x16
  const OP_RELU := 0x17
  const OP_CLAMP := 0x18
  const OP_MAX := 0x19
  const OP_MIN := 0x1A
  const OP_EXP8 := 0x1B
  const OP_CALL := 0x1C
  const OP_SRET := 0x1D

  const NZP_N := 4
  const NZP_Z := 2
  const NZP_P := 1
  const NZP_NZ := 6
  const NZP_NP := 5
  const NZP_ZP := 3
  const NZP_ALL := 7

  predicate AluOpcode(op: int) {
    0x01 <= op <= 0x0C || 0x13 <= op <= 0x14 || 0x16 <= op <= 0x1B
  }

  datatype Instr =
    | Alu(op: int, rd: int, rs1: int, rs2: int, rs3: int)
    | Cmp(rs1: int, rs2: int)
    | Ldr(rd: int, base: int, imm: int)
    | Str(src: int, base: int, imm: int)
    | Const(rd: int, imm: int)
    | Brnzp(nzp: int, off: int)
    | Call(off: int)
    | CallTo(name: string)  // a CALL whose target is still to be patched in
    | Nop | Sync | Ret | Sret
    | Invalid

  // ----- the arithmetic unit -----

  function SignedByte(b: int): int {
    var m := b % 256;
    if m >= 128 then m - 256 else m
  }

  /** The signed int8 lane `k` of a word, little-endian. */
  function ByteLane(w: Word, k: int): int
    requires 0 <= k < 4
  {
    SignedByte(if k == 0 then w else if k == 1 then w / 0x100 else if k == 2 then w / 0x1_0000 else w / 0x100_0000)
  }

  function Dot4(a: Word, b: Word, acc: Word): Word {
    U32(S32(acc) + ByteLane(a, 0) * ByteLane(b, 0) + ByteLane(a, 1) * ByteLane(b, 1)
        + ByteLane(a, 2) * ByteLane(b, 2) + ByteLane(a, 3) * ByteLane(b, 3))
  }

  // The table of exp(x / 64) * 127 for x = -128 .. -1, sixteen entries a row.
  const EXP8_ROW0: seq<int> := [17, 17, 18, 18, 18, 19, 19, 19, 19, 20, 20, 20, 21, 21, 21, 22]
  const EXP8_ROW1: seq<int> := [22, 22, 23, 23, 23, 24, 24, 25, 25, 25, 26, 26, 27, 27, 27, 28]
  const EXP8_ROW2: seq<int> := [28, 29, 29, 30, 30, 31, 31, 32, 32, 33, 33, 34, 34, 35, 35, 36]
  const EXP8_ROW3: seq<int> := [36, 37, 38, 38, 39, 39, 40, 41, 41, 42, 43, 43, 44, 45, 45, 46]
  const EXP8_ROW4: seq<int> := [47, 47, 48, 49, 50, 51, 51, 52, 53, 54, 55, 55, 56, 57, 58, 59]
  const EXP8_ROW5: seq<int> := [60, 61, 62, 63, 64, 65, 66, 67, 68, 69, 70, 71, 72, 74, 75, 76]
  const EXP8_ROW6: seq<int> := [77, 78, 79, 81, 82, 83, 85, 86, 87, 89, 90, 91, 93, 94, 96, 97]
  const EXP8_ROW7: seq<int> := [99, 100, 102, 104, 105, 107, 109, 110, 112, 114, 116, 117, 119, 121, 123, 125]

  function Exp8Row(k: int): (row: seq<int>)
    ensures |row| == 16
  {
    if k == 0 then EXP8_ROW0 else if k == 1 then EXP8_ROW1 else if k == 2 then EXP8_ROW2 else if k == 3 then EXP8_ROW3
    else if k == 4 then EXP8_ROW4 else if k == 5 then EXP8_ROW5 else if k == 6 then EXP8_ROW6 else EXP8_ROW7
  }

  function Exp8Entry(i: int): int
    requires 0 <= i < 128
  {
    Exp8Row(i / 16)[i % 16]
  }

  function Exp8(x: int): int {
    var s := SignedByte(x);
    if s >= 0 then 127 else Exp8Entry(s + 128)
  }

  datatype BitOp = BAnd | BOr | BXor

  function BitOf(op: BitOp, x: int, y: int): int {
    var p, q := x % 2 == 1, y % 2 == 1;
    if (if op.BAnd? then p && q else if op.BOr? then p || q else p != q) then 1 else 0
  }

  /** The low `n` bits of a bitwise operation, lowest bit first. */
  function Bitwise(op: BitOp, x: nat, y: nat, n: nat): (r: nat)
    ensures r < Pow2(n)
    decreases n, x, y
  {
    if n == 0 then 0 else BitOf(op, x, y) + 2 * Bitwise(op, x / 2, y / 2, n - 1)
  }

  lemma Pow2Of32()
    ensures Pow2(32) == TWO32
  {
    assert Pow2(8) == 256;
    assert Pow2(16) == 65536;
    assert Pow2(24) == 0x100_0000;
  }

  function BitAnd(a: Word, b: Word): Word { Pow2Of32(); Bitwise(BAnd, a, b, 32) }

  function BitOr(a: Word, b: Word): Word { Pow2Of32(); Bitwise(BOr, a, b, 32) }

  function BitXor(a: Word, b: Word): Word { Pow2Of32(); Bitwise(BXor, a, b, 32) }

  /** What the ALU computes. A zero divisor is X in the RTL; no theorem here uses the 0 that stands for it. */
  function AluResult(op: int, a: Word, b: Word, c: Word): Word {
    if op == OP_ADD then U32(a + b)
    else if op == OP_SUB then U32(a - b)
    else if op == OP_MUL then U32(a * b)
    else if op == OP_DIV then if b == 0 then 0 else a / b
    else if op == OP_MOD then if b == 0 then 0 else a % b
    else if op == OP_SHL then if b >= 32 then 0 else U32(a * Pow2(b))
    else if op == OP_SHR then if b >= 32 then 0 else U32(a / Pow2(b))
    else if op == OP_AND then BitAnd(a, b)
    else if op == OP_OR then BitOr(a, b)
    else if op == OP_XOR then BitXor(a, b)
    else if op == OP_NOT then TWO32 - 1 - a
    else if op == OP_FMA then U32(a * b + c)
    else if op == OP_IMUL then U32(S32(a) * S32(b))
    else if op == OP_SAR then U32(if b >= 32 then (if S32(a) < 0 then -1 else 0) else S32(a) / Pow2(b))
    else if op == OP_DOT4 then Dot4(a, b, c)
    else if op == OP_RELU then if S32(a) < 0 then 0 else a
    else if op == OP_CLAMP then if S32(a) > 127 then 127 else if S32(a) < -128 then U32(-128) else a
    else if op == OP_MAX then if S32(a) >= S32(b) then a else b
    else if op == OP_MIN then if S32(a) <= S32(b) then a else b
    else if op == OP_EXP8 then U32(Exp8(a))
    else 0
  }

  function CompareNzp(a: Word, b: Word): int {
    if S32(a) == S32(b) then NZP_Z else if S32(a) > S32(b) then NZP_P else NZP_N
  }

  /** Whether the two three-bit masks share a set bit. */
  predicate NzpMatch(nzp: int, mask: int) {
    || (nzp / 4 % 2 == 1 && mask / 4 % 2 == 1)
    || (nzp / 2 % 2 == 1 && mask / 2 % 2 == 1)
    || (nzp % 2 == 1 && mask % 2 == 1)
  }

  // ----- bit layout -----

  predicate IsReg(r: int) { 0 <= r < 32 }

  function RType(op: int, rd: int, rs1: int, rs2: int, rs3: int): int {
    op * 0x400_0000 + rd * 0x20_0000 + rs1 * 0x1_0000 + rs2 * 0x800 + rs3 * 0x40
  }

  function IType(op: int, rd: int, rs: int, imm: int): int {
    op * 0x400_0000 + rd * 0x20_0000 + rs * 0x1_0000 + imm % 0x1_0000
  }

  function BType(op: int, nzp: int, off: int): int {
    op * 0x400_0000 + nzp % 8 * 0x80_0000 + off % 0x800 * 0x1000 + off % 0x1000
  }

  function NType(op: int): int {
    op * 0x400_0000
  }

  /** The word an instruction is emitted as. An unresolved call is emitted with a zero offset. */
  function Encode(i: Instr): int {
    match i
    case Alu(op, rd, rs1, rs2, rs3) => RType(op, rd, rs1, rs2, rs3)
    case Cmp(rs1, rs2) => RType(OP_CMP, 0, rs1, rs2, 0)
    case Ldr(rd, base, imm) => IType(OP_LDR, rd, base, imm)
    case Str(src, base, imm) => IType(OP_STR, src, base, imm)
    case Const(rd, imm) => IType(OP_CONST, rd, 0, imm)
    case Brnzp(nzp, off) => BType(OP_BRNZP, nzp, off)
    case Call(off) => BType(OP_CALL, NZP_ALL, off)
    case CallTo(_) => BType(OP_CALL, NZP_ALL, 0)
    case Nop => NType(OP_NOP)
    case Sync => NType(OP_SYNC)
    case Ret => NType(OP_RET)
    case Sret => NType(OP_SRET)
    case Invalid => NType(0x3F)
  }

  predicate Encodable(i: Instr) {
    match i
    case Alu(op, rd, rs1, rs2, rs3) => AluOpcode(op) && IsReg(rd) && IsReg(rs1) && IsReg(rs2) && IsReg(rs3)
    case Cmp(rs1, rs2) => IsReg(rs1) && IsReg(rs2)
    case Ldr(rd, base, imm) => IsReg(rd) && IsReg(base) && -0x8000 <= imm < 0x8000
    case Str(src, base, imm) => IsReg(src) && IsReg(base) && -0x8000 <= imm < 0x8000
    case Const(rd, imm) => IsReg(rd) && 0 <= imm < 0x1_0000
    case Brnzp(nzp, off) => 0 <= nzp < 8 && -0x800 <= off < 0x800
    case Call(off) => -0x800 <= off < 0x800
    case CallTo(_) => false
    case Invalid => false
    case _ => true
  }

  function SignExtend(x: int, width: int): int {
    if 2 * x >= width then x - width else x
  }

  /** The field extraction of the decoder, sign-extending the load/store immediate and the branch offset. */
  function Decode(w: int): Instr {
    var op := w / 0x400_0000;
    var rd := w / 0x20_0000 % 32;
    var rs1 := w / 0x1_0000 % 32;
    var rs2 := w / 0x800 % 32;
    var rs3 := w / 0x40 % 32;
    var imm := w % 0x1_0000;
    var off := SignExtend(w % 0x1000, 0x1000);
    if AluOpcode(op) then Alu(op, rd, rs1, rs2, rs3)
    else if op == OP_CMP then Cmp(rs1, rs2)
    else if op == OP_LDR then Ldr(rd, rs1, SignExtend(imm, 0x1_0000))
    else if op == OP_STR then Str(rd, rs1, SignExtend(imm, 0x1_0000))
    else if op == OP_CONST then Const(rd, imm)
    else if op == OP_BRNZP then Brnzp(w / 0x80_0000 % 8, off)
    else if op == OP_CALL then Call(off)
    else if op == OP_NOP then Nop
    else if op == OP_SYNC then Sync
    else if op == OP_RET then Ret
    else if op == OP_SRET then Sret
    else Invalid
  }

  /** A bit field: `w` is the bits above it, the field itself, and the bits below it. */
  lemma FieldAt(w: int, m: int, width: int, hi: int, f: int, rest: int)
    requires m > 0 && width > 0 && 0 <= f < width && 0 <= rest < m
    requires w == (hi * width + f) * m + rest
    ensures w / m % width == f
    ensures w % m == rest
  {
    DivModUnique(w, m, hi * width + f, rest);
    DivModUnique(hi * width + f, width, hi, f);
  }

  lemma FieldsOfR(op: int, rd: int, rs1: int, rs2: int, rs3: int)
    requires 0 <= op < 64 && IsReg(rd) && IsReg(rs1) && IsReg(rs2) && IsReg(rs3)
    ensures var w := RType(op, rd, rs1, rs2, rs3);
            0 <= w < TWO32 && w / 0x400_0000 == op && w / 0x20_0000 % 32 == rd && w / 0x1_0000 % 32 == rs1
            && w / 0x800 % 32 == rs2 && w / 0x40 % 32 == rs3
  {
    var w := RType(op, rd, rs1, rs2, rs3);
    DivModUnique(w, 0x400_0000, op, rd * 0x20_0000 + rs1 * 0x1_0000 + rs2 * 0x800 + rs3 * 0x40);
    FieldAt(w, 0x20_0000, 32, op, rd, rs1 * 0x1_0000 + rs2 * 0x800 + rs3 * 0x40);
    FieldAt(w, 0x1_0000, 32, op * 32 + rd, rs1, rs2 * 0x800 + rs3 * 0x40);
    FieldAt(w, 0x800, 32, (op * 32 + rd) * 32 + rs1, rs2, rs3 * 0x40);
    FieldAt(w, 0x40, 32, ((op * 32 + rd) * 32 + rs1) * 32 + rs2, rs3, 0);
  }

  lemma FieldsOfI(op: int, rd: int, rs: int, imm: int)
    requires 0 <= op < 64 && IsReg(rd) && IsReg(rs)
    ensures var w := IType(op, rd, rs, imm);
            0 <= w < TWO32 && w / 0x400_0000 == op && w / 0x20_0000 % 32 == rd && w / 0x1_0000 % 32 == rs
            && w % 0x1_0000 == imm % 0x1_0000
  {
    var w, low := IType(op, rd, rs, imm), imm % 0x1_0000;
    DivModUnique(w, 0x400_0000, op, rd * 0x20_0000 + rs * 0x1_0000 + low);
    FieldAt(w, 0x20_0000, 32, op, rd, rs * 0x1_0000 + low);
    FieldAt(w, 0x1_0000, 32, op * 32 + rd, rs, low);
  }

  lemma FieldsOfB(op: int, nzp: int, off: int)
    requires 0 <= op < 64 && 0 <= nzp < 8
    ensures var w := BType(op, nzp, off);
            0 <= w < TWO32 && w / 0x400_0000 == op && w / 0x80_0000 % 8 == nzp && w % 0x1000 == off % 0x1000
  {
    var w, sync, low := BType(op, nzp, off), off % 0x800, off % 0x1000;
    DivModUnique(w, 0x400_0000, op, nzp * 0x80_0000 + sync * 0x1000 + low);
    FieldAt(w, 0x80_0000, 8, op, nzp, sync * 0x1000 + low);
    DivModUnique(w, 0x1000, (op * 8 + nzp) * 0x800 + sync, low);
  }

  /** A two's complement field of `width` values is recovered by sign extension. */
  lemma SignExtendMod(x: int, width: int)
    requires width > 0 && -width <= 2 * x < width
    ensures SignExtend(x % width, width) == x
  {
    if x < 0 {
      DivModUnique(x, width, -1, x + width);
    } else {
      DivModUnique(x, width, 0, x);
    }
  }

  /** Packing an instruction and decoding the word gives the instruction back. */
  lemma DecodeEncode(i: Instr)
    requires Encodable(i)
    ensures 0 <= Encode(i) < TWO32
    ensures Decode(Encode(i)) == i
  {
    match i
    case Alu(op, rd, rs1, rs2, rs3) => FieldsOfR(op, rd, rs1, rs2, rs3);
    case Cmp(rs1, rs2) => FieldsOfR(OP_CMP, 0, rs1, rs2, 0);
    case Ldr(rd, base, imm) => FieldsOfI(OP_LDR, rd, base, imm); SignExtendMod(imm, 0x1_0000);
    case Str(src, base, imm) => FieldsOfI(OP_STR, src, base, imm); SignExtendMod(imm, 0x1_0000);
    case Const(rd, imm) => FieldsOfI(OP_CONST, rd, 0, imm); DivModUnique(imm, 0x1_0000, 0, imm);
    case Brnzp(nzp, off) => FieldsOfB(OP_BRNZP, nzp, off); SignExtendMod(off, 0x1000);
    case Call(off) => FieldsOfB(OP_CALL, NZP_ALL, off); SignExtendMod(off, 0x1000);
    case _ =>
  }

  // ----- one lane -----

  type Memory = map<Word, Word>

  /** The values behind R29, R30 and R31; `tid` is the block index when a block has one thread. */
  datatype Ids = Ids(tid: Word, bid: Word, bdim: Word)

  datatype Lane = Lane(pc: int, regs: seq<Word>, nzp: int, mem: Memory, stack: seq<int>, halted: bool)

  function Load(m: Memory, a: Word): Word {
    if a in m then m[a] else 0
  }

  function Read(ids: Ids, s: Lane, r: int): Word {
    if r == 29 then ids.tid else if r == 30 then ids.bid else if r == 31 then ids.bdim
    else if 1 <= r < |s.regs| then s.regs[r] else 0
  }

  /** R0 and R29..R31 ignore writes. */
  function Write(s: Lane, r: int, v: Word): Lane {
    if 1 <= r <= 28 && r < |s.regs| then s.(regs := s.regs[r := v]) else s
  }

  function Next(s: Lane): Lane {
    s.(pc := s.pc + 1)
  }

  const STACK_DEPTH := 2

  function Exec(ids: Ids, i: Instr, s: Lane): Lane {
    match i
    case Alu(op, rd, rs1, rs2, rs3) =>
      Next(Write(s, rd, AluResult(op, Read(ids, s, rs1), Read(ids, s, rs2), Read(ids, s, rs3))))
    case Cmp(rs1, rs2) => Next(s.(nzp := CompareNzp(Read(ids, s, rs1), Read(ids, s, rs2))))
    case Ldr(rd, base, imm) => Next(Write(s, rd, Load(s.mem, U32(Read(ids, s, base) + imm))))
    case Str(src, base, imm) => Next(s.(mem := s.mem[U32(Read(ids, s, base) + imm) := Read(ids, s, src)]))
    case Const(rd, imm) => Next(Write(s, rd, U32(imm)))
    case Brnzp(mask, off) => if NzpMatch(s.nzp, mask) then s.(pc := s.pc + off) else Next(s)
    case Call(off) =>
      s.(pc := s.pc + off, stack := if |s.stack| < STACK_DEPTH then s.stack + [s.pc + 1] else s.stack)
    case Sret =>
      if s.stack == [] then s.(pc := 0) else s.(pc := s.stack[|s.stack| - 1], stack := s.stack[..|s.stack| - 1])
    case Ret => s.(halted := true)
    case _ => Next(s)
  }

  /** One instruction of the lane; a halted lane, or one whose pc is outside the program, stays as it is. */
  function Step(ids: Ids, prog: seq<Instr>, s: Lane): Lane {
    if s.halted || !(0 <= s.pc < |prog|) then s else Exec(ids, prog[s.pc], s)
  }

  function Run(ids: Ids, prog: seq<Instr>, s: Lane, n: nat): Lane
    decreases n
  {
    if n == 0 then s else Run(ids, prog, Step(ids, prog, s), n - 1)
  }

  lemma RunAdd(ids: Ids, prog: seq<Instr>, s: Lane, n: nat, m: nat)
    ensures Run(ids, prog, s, n + m) == Run(ids, prog, Run(ids, prog, s, n), m)
    decreases n
  {
    if n != 0 {
      RunAdd(ids, prog, Step(ids, prog, s), n - 1, m);
    }
  }

  lemma HaltedStays(ids: Ids, prog: seq<Instr>, s: Lane, n: nat)
    requires s.halted
    ensures Run(ids, prog, s, n) == s
    decreases n
  {
  }

  /** The program a sequence of instruction words stands for. */
  function DecodeAll(words: seq<int>): (p: seq<Instr>)
    ensures |p| == |words| && forall k :: 0 <= k < |p| ==> p[k] == Decode(words[k])
  {
    seq(|words|, k requires 0 <= k < |words| => Decode(words[k]))
  }
}
