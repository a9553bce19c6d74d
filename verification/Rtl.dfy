/** The case tables of the hardware and of the packers once more, with every number written out, and the proof that the
    lane's instruction set is the one they describe. */
module Rtl {
  import opened Words
  import opened Isa
  import opened Lang
  import opened Lowering
  import Sema

  // ----- the arithmetic unit -----

  function Signed(w: Word): int { if w < 0x8000_0000 then w else w - 0x1_0000_0000 }

  function Unsigned(x: int): Word { x % 0x1_0000_0000 }

  /** The signed byte from bit `lo` on. */
  function SignedByteAt(w: Word, lo: nat): int {
    var b := w / Pow2(lo) % 256;
    if b < 128 then b else b - 256
  }

  function Bit(w: int, k: nat): bool { w / Pow2(k) % 2 == 1 }

  /** The result for each opcode but the three bitwise ones. */
  function AluOf(op: int, a: Word, b: Word, c: Word): int {
    match op
    case 0x01 => Unsigned(a + b)
    case 0x02 => Unsigned(a - b)
    case 0x03 => Unsigned(a * b)
    case 0x04 => if b == 0 then 0 else a / b
    case 0x05 => if b == 0 then 0 else a % b
    case 0x06 => if b >= 32 then 0 else Unsigned(a * Pow2(b))
    case 0x07 => if b >= 32 then 0 else a / Pow2(b)
    case 0x0B => 0xFFFF_FFFF - a
    case 0x0C => Unsigned(Unsigned(a * b) + c)
    case 0x13 => Unsigned(Signed(a) * Signed(b))
    case 0x14 => if b < 32 then Unsigned(Signed(a) / Pow2(b)) else if a < 0x8000_0000 then 0 else 0xFFFF_FFFF
    case 0x16 =>
      Unsigned(Signed(c) + SignedByteAt(a, 0) * SignedByteAt(b, 0) + SignedByteAt(a, 8) * SignedByteAt(b, 8)
               + SignedByteAt(a, 16) * SignedByteAt(b, 16) + SignedByteAt(a, 24) * SignedByteAt(b, 24))
    case 0x17 => if a >= 0x8000_0000 then 0 else a
    case 0x18 => if 127 < a < 0x8000_0000 then 127 else if 0x8000_0000 <= a < 0xFFFF_FF80 then 0xFFFF_FF80 else a
    case 0x19 => if Signed(a) >= Signed(b) then a else b
    case 0x1A => if Signed(a) <= Signed(b) then a else b
    case 0x1B => if SignedByteAt(a, 0) >= 0 then 127 else Exp8Entry(SignedByteAt(a, 0) + 128)
    case _ => 0
  }

  predicate IsBitwise(op: int) { op == 0x08 || op == 0x09 || op == 0x0A }

  lemma BytePowers()
    ensures Pow2(0) == 1 && Pow2(8) == 0x100 && Pow2(16) == 0x1_0000 && Pow2(24) == 0x100_0000
  {
    assert Pow2(4) == 16;
    assert Pow2(8) == 256;
    assert Pow2(12) == 4096;
    assert Pow2(16) == 65536;
    assert Pow2(20) == 0x10_0000;
    assert Pow2(24) == 0x100_0000;
  }

  lemma LaneAt(w: Word, k: nat)
    requires k < 4
    ensures ByteLane(w, k) == SignedByteAt(w, 8 * k)
  {
    BytePowers();
    hide Pow2;
  }

  lemma SignedIs(w: Word)
    ensures S32(w) == Signed(w)
  {
  }

  /** The ALU of the model is the ALU of the table, for every opcode and all words. */
  lemma AluIsTable(op: int, a: Word, b: Word, c: Word)
    requires !IsBitwise(op)
    ensures AluResult(op, a, b, c) == AluOf(op, a, b, c)
  {
    hide Pow2, ByteLane, SignedByteAt, Exp8Entry, BitAnd, BitOr, BitXor;
    SignedIs(a);
    SignedIs(b);
    SignedIs(c);
    if op == 0x16 {
      LaneAt(a, 0); LaneAt(a, 1); LaneAt(a, 2); LaneAt(a, 3);
      LaneAt(b, 0); LaneAt(b, 1); LaneAt(b, 2); LaneAt(b, 3);
    } else if op == 0x0C {
      ProductWord(a, b, c);
    } else if op == 0x07 {
      ShiftedWord(a, b);
    } else if op == 0x1B {
      ExpWord(a);
    }
  }

  lemma ProductWord(a: Word, b: Word, c: Word)
    ensures U32(a * b + c) == Unsigned(Unsigned(a * b) + c)
  {
    var q := a * b / 0x1_0000_0000;
    assert a * b == q * 0x1_0000_0000 + Unsigned(a * b);
    ModShift(Unsigned(a * b) + c, q, 0x1_0000_0000);
  }

  lemma ShiftedWord(a: Word, b: Word)
    ensures 0 <= a / Pow2(b) <= a
  {
    DivNonneg(a, Pow2(b));
  }

  lemma ExpWord(a: Word)
    ensures U32(Exp8(a)) == (if SignedByteAt(a, 0) >= 0 then 127 else Exp8Entry(SignedByteAt(a, 0) + 128))
  {
    BytePowers();
    hide Pow2, Exp8Row;
    assert SignedByte(a) == SignedByteAt(a, 0);
    if SignedByte(a) < 0 {
      EntryRange(SignedByte(a) + 128);
    }
  }

  lemma EntryRange(i: int)
    requires 0 <= i < 128
    ensures 0 <= Exp8Entry(i) <= 127
  {
    hide Exp8Row;
    RowRange(i / 16, i % 16);
  }

  lemma RowRange(k: int, j: int)
    requires 0 <= k < 8 && 0 <= j < 16
    ensures 0 <= Exp8Row(k)[j] <= 127
  {
  }

  // ----- the bitwise operations, bit by bit -----

  lemma {:induction false} BitsOf(op: BitOp, x: nat, y: nat, n: nat, k: nat)
    requires k < n
    ensures Bit(Bitwise(op, x, y, n), k)
            == (if op.BAnd? then Bit(x, k) && Bit(y, k) else if op.BOr? then Bit(x, k) || Bit(y, k) else Bit(x, k) != Bit(y, k))
    decreases n
  {
    hide Bit;
    var low, high := BitOf(op, x, y), Bitwise(op, x / 2, y / 2, n - 1);
    LowBit(x);
    LowBit(y);
    LowBit(low + 2 * high);
    if k > 0 {
      BitsOf(op, x / 2, y / 2, n - 1, k - 1);
      BitAbove(low + 2 * high, k);
      BitAbove(x, k);
      BitAbove(y, k);
    }
  }

  lemma LowBit(x: nat)
    ensures Bit(x, 0) == (x % 2 == 1)
  {
  }

  lemma BitAbove(x: nat, k: nat)
    requires k > 0
    ensures Bit(x, k) == Bit(x / 2, k - 1)
  {
    var p := Pow2(k - 1);
    var q := x / 2 / p;
    DivNonneg(x / 2, p);
    assert x / 2 == q * p + x / 2 % p;
    assert x == q * (2 * p) + (2 * (x / 2 % p) + x % 2);
    DivModUnique(x, 2 * p, q, 2 * (x / 2 % p) + x % 2);
  }

  /** Opcodes 8, 9 and 10 are AND, OR and XOR of each of the 32 bits. */
  lemma BitwiseIsTable(a: Word, b: Word, c: Word, k: nat)
    requires k < 32
    ensures Bit(AluResult(0x08, a, b, c), k) == (Bit(a, k) && Bit(b, k))
    ensures Bit(AluResult(0x09, a, b, c), k) == (Bit(a, k) || Bit(b, k))
    ensures Bit(AluResult(0x0A, a, b, c), k) == (Bit(a, k) != Bit(b, k))
  {
    hide Bitwise, Bit;
    BitsOf(BAnd, a, b, 32, k);
    BitsOf(BOr, a, b, 32, k);
    BitsOf(BXor, a, b, 32, k);
  }

  /** The flags of the signed comparison: negative, zero, positive from the top bit down. */
  lemma FlagsAreTable(a: Word, b: Word)
    ensures CompareNzp(a, b) == if Signed(a) < Signed(b) then 4 else if Signed(a) == Signed(b) then 2 else 1
  {
    SignedIs(a);
    SignedIs(b);
  }

  // ----- the decoder -----

  /** Bits `hi` down to `lo` of a word. */
  function Slice(w: int, hi: nat, lo: nat): int
    requires hi >= lo
  {
    w / Pow2(lo) % Pow2(hi + 1 - lo)
  }

  function Offset12(f: int): int { if f < 0x800 then f else f - 0x1000 }

  function Offset16(f: int): int { if f < 0x8000 then f else f - 0x1_0000 }

  /** What the decoder makes of a word, by opcode and fields. */
  function DecoderOf(w: Word): Instr {
    var opcode, rd, rs1, rs2, rs3 := Slice(w, 31, 26), Slice(w, 25, 21), Slice(w, 20, 16), Slice(w, 15, 11), Slice(w, 10, 6);
    var imm, nzp, offset := Slice(w, 15, 0), Slice(w, 25, 23), Slice(w, 11, 0);
    match opcode
    case 0x00 => Nop
    case 0x0D => Cmp(rs1, rs2)
    case 0x0E => Brnzp(nzp, Offset12(offset))
    case 0x0F => Ldr(rd, rs1, Offset16(imm))
    case 0x10 => Str(rd, rs1, Offset16(imm))
    case 0x11 => Const(rd, imm)
    case 0x12 => Ret
    case 0x15 => Sync
    case 0x1C => Call(Offset12(offset))
    case 0x1D => Sret
    case _ => if opcode in {1, 2, 3, 4, 5, 6, 7, 8, 9, 10, 11, 12, 19, 20, 22, 23, 24, 25, 26, 27} then Alu(opcode, rd, rs1, rs2, rs3) else Invalid
  }

  lemma FieldPowers()
    ensures Pow2(0) == 1 && Pow2(3) == 8 && Pow2(5) == 32 && Pow2(6) == 0x40 && Pow2(11) == 0x800 && Pow2(12) == 0x1000
    ensures Pow2(16) == 0x1_0000 && Pow2(21) == 0x20_0000 && Pow2(23) == 0x80_0000 && Pow2(26) == 0x400_0000
  {
    assert Pow2(4) == 16;
    assert Pow2(8) == 256;
    assert Pow2(12) == 4096;
    assert Pow2(16) == 65536;
    assert Pow2(20) == 0x10_0000;
    assert Pow2(24) == 0x100_0000;
  }

  /** The model's decoder reads every word as the table does. */
  lemma DecodeIsTable(w: Word)
    ensures Decode(w) == DecoderOf(w)
  {
    FieldPowers();
    hide Pow2;
    assert w / 0x400_0000 % 64 == w / 0x400_0000;
  }

  // ----- the packers -----

  /** The word the packers build: fields shifted to their places, negative numbers cut to their fields. */
  function PackerOf(i: Instr): int {
    match i
    case Alu(op, rd, rs1, rs2, rs3) => op * Pow2(26) + rd * Pow2(21) + rs1 * Pow2(16) + rs2 * Pow2(11) + rs3 * Pow2(6)
    case Cmp(rs1, rs2) => 0x0D * Pow2(26) + rs1 * Pow2(16) + rs2 * Pow2(11)
    case Ldr(rd, rs, imm) => 0x0F * Pow2(26) + rd * Pow2(21) + rs * Pow2(16) + imm % Pow2(16)
    case Str(rd, rs, imm) => 0x10 * Pow2(26) + rd * Pow2(21) + rs * Pow2(16) + imm % Pow2(16)
    case Const(rd, imm) => 0x11 * Pow2(26) + rd * Pow2(21) + imm % Pow2(16)
    case Brnzp(nzp, off) => 0x0E * Pow2(26) + nzp % 8 * Pow2(23) + off % Pow2(11) * Pow2(12) + off % Pow2(12)
    case Call(off) => 0x1C * Pow2(26) + 7 * Pow2(23) + off % Pow2(11) * Pow2(12) + off % Pow2(12)
    case CallTo(_) => 0x1C * Pow2(26) + 7 * Pow2(23)
    case Nop => 0
    case Sync => 0x15 * Pow2(26)
    case Ret => 0x12 * Pow2(26)
    case Sret => 0x1D * Pow2(26)
    case Invalid => 0x3F * Pow2(26)
  }

  /** Every instruction is emitted as the word of the packers, the sync field of branches and calls included. */
  lemma EncodeIsTable(i: Instr)
    ensures Encode(i) == PackerOf(i)
  {
    FieldPowers();
    hide Pow2;
  }

  /** A branch word carries its offset twice: in the field the pc adds, and modulo 2^11 in the sync field. */
  lemma SyncField(nzp: int, off: int)
    requires 0 <= nzp < 8
    ensures Slice(Encode(Brnzp(nzp, off)), 22, 12) == off % 0x800 && Slice(Encode(Brnzp(nzp, off)), 11, 0) == off % 0x1000
    ensures Slice(Encode(Call(off)), 22, 12) == off % 0x800 && Slice(Encode(Call(off)), 11, 0) == off % 0x1000
  {
    FieldPowers();
    hide Pow2;
    FieldAt(Encode(Brnzp(nzp, off)), 0x1000, 0x800, 0x0E * 8 + nzp, off % 0x800, off % 0x1000);
    FieldAt(Encode(Call(off)), 0x1000, 0x800, 0x1C * 8 + 7, off % 0x800, off % 0x1000);
  }

  // ----- the instructions the generator picks -----

  /** The opcode of each operator: the packer its case calls. */
  function OpcodeOf(op: Operator): int {
    match op
    case Plus => 0x01
    case Minus => 0x02
    case Star => 0x13
    case Slash => 0x04
    case Percent => 0x05
    case Sar => 0x14
    case Shl => 0x06
    case Amp => 0x08
    case Pipe => 0x09
    case Caret => 0x0A
    case Neg => 0x02
    case Tilde => 0x0B
    case Fma => 0x0C
    case DotProd => 0x16
    case Exp8Of => 0x1B
    case Relu => 0x17
    case Clamp => 0x18
    case _ => -1
  }

  /** For each operator the generator emits the instruction with its number, operands in their order, R0 in the unused
      fields; a move is an addition of R0. */
  lemma OpcodesAreTable(op: Operator, rd: int, r: seq<int>)
    requires |r| == Arity(op)
    ensures AluInstr(op, rd, r)
            == if op.Neg? then Alu(0x02, rd, 0, r[0], 0)
               else Alu(OpcodeOf(op), rd, r[0], if |r| > 1 then r[1] else 0, if |r| > 2 then r[2] else 0)
    ensures Mov(rd, r[0]) == if rd == r[0] then [] else [Alu(0x01, rd, r[0], 0, 0)]
  {
  }

  /** The masks of the comparisons: negative 4, zero 2, positive 1. */
  lemma MasksAreTable()
    ensures NzpForOp(Lt) == 4 && NzpForOp(EqEq) == 2 && NzpForOp(Gt) == 1
    ensures NzpForOp(Leq) == 6 && NzpForOp(Neq) == 5 && NzpForOp(Geq) == 3
  {
  }

  // ----- pc, call stack and registers -----

  /** The next pc: the return address popped, an offset taken, or the next word. */
  function PcOf(pc: int, sret: bool, target: int, call: bool, branch: bool, nzp: int, mask: int, offset: int): int {
    if sret then target
    else if call || (branch && exists k: nat :: k < 3 && Bit(nzp, k) && Bit(mask, k)) then pc + offset
    else pc + 1
  }

  lemma MaskBits(nzp: int, mask: int)
    ensures NzpMatch(nzp, mask) <==> exists k: nat :: k < 3 && Bit(nzp, k) && Bit(mask, k)
  {
    assert Pow2(0) == 1 && Pow2(1) == 2 && Pow2(2) == 4;
    if k: nat :| k < 3 && Bit(nzp, k) && Bit(mask, k) {
      assert k == 0 || k == 1 || k == 2;
    }
    if NzpMatch(nzp, mask) {
      assert (Bit(nzp, 0) && Bit(mask, 0)) || (Bit(nzp, 1) && Bit(mask, 1)) || (Bit(nzp, 2) && Bit(mask, 2));
    }
  }

  /** The top of the two-entry call stack; an empty one shows 0. */
  function TopOf(stack: seq<int>): int { if stack == [] then 0 else stack[|stack| - 1] }

  /** Every running instruction but RET moves the pc as the pc unit does; the stack has two entries, and only CALL pushes
      and only SRET pops. */
  lemma PcIsTable(ids: Ids, i: Instr, s: Lane)
    requires !i.Ret?
    ensures Exec(ids, i, s).pc
            == PcOf(s.pc, i.Sret?, TopOf(s.stack), i.Call?, i.Brnzp?, s.nzp, if i.Brnzp? then i.nzp else 7, if i.Brnzp? || i.Call? then i.off else 0)
    ensures Exec(ids, i, s).stack
            == if i.Call? && |s.stack| < 2 then s.stack + [s.pc + 1]
               else if i.Sret? && s.stack != [] then s.stack[..|s.stack| - 1]
               else s.stack
    ensures Exec(ids, i, s).nzp == if i.Cmp? then CompareNzp(Read(ids, s, i.rs1), Read(ids, s, i.rs2)) else s.nzp
  {
    hide Bit, Read, CompareNzp, AluResult, Load, NzpMatch;
    if i.Brnzp? {
      MaskBits(s.nzp, i.nzp);
    }
  }

  /** The register file: R0 reads zero, R29 to R31 read the ids, R1 to R28 read what was last written to them. */
  lemma RegistersAreTable(ids: Ids, s: Lane, r: int, w: int, v: Word)
    requires |s.regs| == 32 && 0 <= r < 32 && 0 <= w < 32
    ensures Read(ids, Write(s, w, v), r)
            == if r == 0 then 0 else if r == 29 then ids.tid else if r == 30 then ids.bid else if r == 31 then ids.bdim
               else if w == r then v else s.regs[r]
  {
  }

  /** What each instruction reads and writes: three source registers, or a base and an offset into memory. */
  lemma DataIsTable(ids: Ids, s: Lane, op: int, rd: int, a: int, b: int, c: int, imm: int)
    ensures Exec(ids, Alu(op, rd, a, b, c), s) == Write(s, rd, AluResult(op, Read(ids, s, a), Read(ids, s, b), Read(ids, s, c))).(pc := s.pc + 1)
    ensures Exec(ids, Ldr(rd, a, imm), s) == Write(s, rd, Load(s.mem, Unsigned(Read(ids, s, a) + imm))).(pc := s.pc + 1)
    ensures Exec(ids, Str(rd, a, imm), s) == s.(mem := s.mem[Unsigned(Read(ids, s, a) + imm) := Read(ids, s, rd)], pc := s.pc + 1)
    ensures 0 <= imm < 0x1_0000 ==> Exec(ids, Const(rd, imm), s) == Write(s, rd, imm).(pc := s.pc + 1)
  {
    hide AluResult, Read, Load;
  }

  // ----- numbers of the convention -----

  /** Where the parameter block is, how many words fit, and which registers serve which purpose. */
  lemma Conventions()
    ensures PARAM_BASE == 0x100 && MAX_INSTRUCTIONS == 256 && STACK_DEPTH == 2
    ensures Sema.MAX_VARS == 19 && Sema.TMP_BASE == 20 && Sema.TMP_ONE == 28 && Sema.FUNC_REG_BASE == 14 && Sema.FUNC_MAX_VARS == 5
    ensures Sema.TABLE_SIZE == 29 && Sema.FUNC_REG_RET == 19 && Sema.KERNEL_MAX_VARS_WITH_FUNCS == 13
  {
  }
}
