/** The meaning of the supported instructions in the RISC-V Unprivileged ISA (20191213),
    sections 1.4 and 2.4 to 2.6, over integers, and the proof that the decoder, the operand
    tables and the semantic functions together give it. */
module Refinement {
  import opened Words
  import opened FlatMemory
  import opened BinFormat
  import opened Isa
  import opened Semantics
  import opened Machine
  import opened Manual

  // ---------------------------------------------------------------- the manual

  /** Section 2.1: x0 is hardwired to zero. */
  function ReadX(x: Regs, r: nat): Word
    requires r < 32
  {
    if r == 0 then 0 else x[r]
  }

  function SetX(x: Regs, r: nat, v: Word): Regs
    requires r < 32
  {
    if r == 0 then x else x[r := v]
  }

  /** Section 1.4: the address space is circular. */
  function ByteInSpace(m: Memory, a: Addr): int
  {
    Get(m, a % TWO32)
  }

  /** Section 2.6: a little-endian value of n bytes, sign- or zero-extended to 32 bits. */
  function LittleEndian(m: Memory, a: Addr, n: Size): (v: Word)
    ensures v < Span(n)
  {
    if n == 1 then ByteInSpace(m, a)
    else if n == 2 then ByteInSpace(m, a) + 0x100 * ByteInSpace(m, a + 1)
    else ByteInSpace(m, a) + 0x100 * ByteInSpace(m, a + 1)
         + 0x1_0000 * ByteInSpace(m, a + 2) + 0x100_0000 * ByteInSpace(m, a + 3)
  }

  function LoadResult(m: Memory, a: Addr, n: Size, signed: bool): Word
  {
    var value := LittleEndian(m, a, n);
    Wrap(if signed && value >= Span(n) / 2 then value - Span(n) else value)
  }

  function StoreResult(m: Memory, a: Addr, n: Size, v: Word): Memory
  {
    var m1 := Store(m, a % TWO32, 1, ByteAt(v, 0));
    if n == 1 then m1 else
    var m2 := Store(m1, (a + 1) % TWO32, 1, ByteAt(v, 1));
    if n == 2 then m2 else
    Store(Store(m2, (a + 2) % TWO32, 1, ByteAt(v, 2)), (a + 3) % TWO32, 1, ByteAt(v, 3))
  }

  function Shift(op: Opcode, a: Word, k: int): Word
    requires 0 <= k < 32 && op in {Sll, Slli, Srli, Srai}
  {
    if op == Srli then
      DivShrinks(a, Pow2(k));
      a / Pow2(k)
    else if op == Srai then
      SignedShiftFills(a, k);
      a / Pow2(k) + if a >= 0x8000_0000 then (Pow2(k) - 1) * Pow2(32 - k) else 0
    else Wrap(a * Pow2(k))
  }

  function BitwiseAnd(a: Word, b: Word): Word
  {
    Pow2At32();
    FromDigits((k: nat) => Bit(a, k) && Bit(b, k), 32)
  }

  function BitwiseOr(a: Word, b: Word): Word
  {
    Pow2At32();
    FromDigits((k: nat) => Bit(a, k) || Bit(b, k), 32)
  }

  function BitwiseXor(a: Word, b: Word): Word
  {
    Pow2At32();
    FromDigits((k: nat) => Bit(a, k) != Bit(b, k), 32)
  }

  /** Section 2.4: the integer computational instructions. */
  function Computed(i: Instr, x1: Word, x2: Word, pc: Word): Word
    requires InRange(i) && FormatOf(i.op) in {FmtR, FmtI, FmtShift, FmtU}
    requires SemFuncOf(i.op) != JalrFunc && !SemFuncOf(i.op).LoadFunc?
  {
    match i.op
    case Add => Wrap(x1 + x2)
    case Sub => Wrap(x1 - x2)
    case And => BitwiseAnd(x1, x2)
    case Or => BitwiseOr(x1, x2)
    case Xor => BitwiseXor(x1, x2)
    case Sll => Shift(Sll, x1, x2 % 32)
    case Sltu => if x1 < x2 then 1 else 0
    case Addi => Wrap(x1 + i.imm)
    case Andi => BitwiseAnd(x1, Wrap(i.imm))
    case Ori => BitwiseOr(x1, Wrap(i.imm))
    case Xori => BitwiseXor(x1, Wrap(i.imm))
    case Slli | Srli | Srai => Shift(i.op, x1, i.imm)
    case Lui => i.imm * 4096
    case Auipc => Wrap(pc + i.imm * 4096)
  }

  /** Section 2.5: the conditions of the branches. */
  predicate Taken(op: Opcode, x1: Word, x2: Word)
    requires FormatOf(op) == FmtB
  {
    match op
    case Beq => x1 == x2
    case Bne => x1 != x2
    case Blt => Signed(x1) < Signed(x2)
    case Bge => Signed(x1) >= Signed(x2)
    case Bltu => x1 < x2
    case Bgeu => x1 >= x2
  }

  function AccessSize(op: Opcode): Size
  {
    match op
    case Sb | Lb | Lbu => 1
    case Sh | Lh | Lhu => 2
    case _ => 4
  }

  /** The state after an instruction that raises no exception. */
  function ManualNext(i: Instr, x: Regs, pc: Word, m: Memory): Arch
    requires InRange(i) && i.op != Ebreak
  {
    var x1, x2, next := ReadX(x, i.rs1), ReadX(x, i.rs2), Wrap(pc + 4);
    if FormatOf(i.op) == FmtB then Arch(x, if Taken(i.op, x1, x2) then Wrap(pc + i.imm) else next, m)
    else if i.op == Jal then Arch(SetX(x, i.rd, next), Wrap(pc + i.imm), m)
    else if i.op == Jalr then
      var t := Wrap(x1 + i.imm);
      Arch(SetX(x, i.rd, next), t - t % 2, m)
    else if FormatOf(i.op) == FmtS then
      Arch(x, next, StoreResult(m, Wrap(x1 + i.imm), AccessSize(i.op), x2))
    else if SemFuncOf(i.op).LoadFunc? then
      Arch(SetX(x, i.rd, LoadResult(m, Wrap(x1 + i.imm), AccessSize(i.op), i.op == Lb || i.op == Lh)), next, m)
    else Arch(SetX(x, i.rd, Computed(i, x1, x2, pc)), next, m)
  }

  datatype Cause = MisalignedTarget | EnvironmentBreak

  /** An instruction retires or raises an exception; Outside is what is not described here. */
  datatype Execution = Retires(state: Arch) | Raises(cause: Cause) | Outside

  /** A jump or a taken branch. */
  predicate Transfers(i: Instr, x: Regs)
    requires InRange(i)
  {
    i.op == Jal || i.op == Jalr || (FormatOf(i.op) == FmtB && Taken(i.op, ReadX(x, i.rs1), ReadX(x, i.rs2)))
  }

  /** Sections 2.2 and 2.5: with no 16-bit instructions, a jump or a taken branch whose target is not
      four-byte aligned raises an exception and writes nothing. Section 2.8: ebreak calls the
      debugger. */
  function ManualExecute(i: Instr, x: Regs, pc: Word, m: Memory): Execution
    requires InRange(i)
  {
    if i.op == Ebreak then Raises(EnvironmentBreak)
    else
      var next := ManualNext(i, x, pc, m);
      if Transfers(i, x) && next.pc % 4 != 0 then Raises(MisalignedTarget) else Retires(next)
  }

  // ---------------------------------------------------------------- where the two can differ

  /** A data access that runs over the end of the 32-bit address space. A load into x0 leaves no
      trace of where it read. */
  predicate Straddles(i: Instr, x: Regs)
    requires InRange(i)
  {
    && (FormatOf(i.op) == FmtS || (SemFuncOf(i.op).LoadFunc? && i.rd != 0))
    && Wrap(ReadX(x, i.rs1) + i.imm) + AccessSize(i.op) > TWO32
  }

  /** The sum that gives the target of a transfer, with bit 0 as it comes. */
  function TargetSum(i: Instr, x: Regs, pc: Word): Word
    requires InRange(i)
  {
    Wrap((if i.op == Jalr then ReadX(x, i.rs1) else pc) + i.imm)
  }

  predicate Misaligned(i: Instr, x: Regs, pc: Word)
    requires InRange(i)
  {
    Transfers(i, x) && TargetSum(i, x, pc) % 4 != 0
  }

  /** An indirect jump whose target has bit 0 set. */
  predicate OddTarget(i: Instr, x: Regs)
    requires InRange(i)
  {
    i.op == Jalr && Wrap(ReadX(x, i.rs1) + i.imm) % 2 == 1
  }

  /** The simulator never raises an exception: it conforms where the manual retires in the same state. */
  ghost predicate Conforms(s: Arch, e: Execution)
  {
    e.Retires? && Agree(s, e.state)
  }

  // ---------------------------------------------------------------- the refinement

  /** The instruction object that the simulator builds for an encoded instruction. */
  function Built(illegalSize: Word, pc: Word, i: Instr): Inst
    requires InRange(i)
  {
    Decode(illegalSize, pc, Encode(i))
  }

  lemma WrapSum(a: int, b: int)
    ensures Wrap(Wrap(a) + b) == Wrap(a + b) && Wrap(a + Wrap(b)) == Wrap(a + b)
  {
    WrapCongruent(a, Wrap(a), a / TWO32);
    WrapCongruent(a + b, Wrap(a) + b, a / TWO32);
    WrapCongruent(a + b, a + Wrap(b), b / TWO32);
  }

  lemma BuiltShape(illegalSize: Word, pc: Word, i: Instr)
    requires InRange(i)
    ensures var b, w := Built(illegalSize, pc, i), Encode(i);
      && b.op == i.op && b.address == pc && b.size == 4
      && b.sources == GetSources(SourceOps(i.op), w) && b.dests == GetDests(DestOps(i.op), w)
      && Decoded(w) == i
  {
    hide Encode, DecodeOpcode;
    EncodeOpcode(i);
    DecodeEncode(i);
  }

  /** The destination operand for register rd: writing it sets rd, or nothing for x0. */
  lemma DestWritesX(d: Dest, rd: nat, x: Regs, v: Word)
    requires rd < 32 && d == RdDest(rd)
    ensures WriteReg(x, Written(d, v).rd) == SetX(x, rd, v) && Written(d, v).target == None
  {
  }

  function SourceValue(b: Inst, k: nat, x: Regs): Word
  {
    if k < |b.sources| then Value(b.sources[k], x) else 0
  }

  function RdDest(rd: nat): Dest
    requires rd < 32
  {
    if rd == 0 then DevNull else X(rd)
  }

  /** The operands of an instruction object are those the manual's instruction names. */
  predicate HasOperands(b: Inst, i: Instr, pc: Word, x: Regs)
    requires InRange(i)
  {
    && b.op == i.op && b.address == pc && b.size == 4
    && match FormatOf(i.op)
       case FmtR => SourceValue(b, 0, x) == ReadX(x, i.rs1) && SourceValue(b, 1, x) == ReadX(x, i.rs2)
                    && b.dests == [RdDest(i.rd)]
       case FmtI => SourceValue(b, 0, x) == ReadX(x, i.rs1) && SourceValue(b, 1, x) == Wrap(i.imm)
                    && b.dests == if i.op == Jalr then [Pc, RdDest(i.rd)] else [RdDest(i.rd)]
       case FmtShift => SourceValue(b, 0, x) == ReadX(x, i.rs1) && SourceValue(b, 1, x) == i.imm
                        && b.dests == [RdDest(i.rd)]
       case FmtU => SourceValue(b, 0, x) == i.imm * 4096 && b.dests == [RdDest(i.rd)]
       case FmtB => SourceValue(b, 0, x) == ReadX(x, i.rs1) && SourceValue(b, 1, x) == ReadX(x, i.rs2)
                    && SourceValue(b, 2, x) == Wrap(i.imm) && b.dests == [Pc]
       case FmtJ => SourceValue(b, 0, x) == Wrap(i.imm) && b.dests == [Pc, RdDest(i.rd)]
       case FmtS => SourceValue(b, 0, x) == ReadX(x, i.rs1) && SourceValue(b, 1, x) == Wrap(i.imm)
                    && SourceValue(b, 2, x) == ReadX(x, i.rs2)
       case FmtSystem => true
  }

  /** The operand lists and getters deliver the operands of the encoded instruction. */
  lemma BuiltOperands(illegalSize: Word, pc: Word, i: Instr, x: Regs)
    requires InRange(i)
    ensures HasOperands(Built(illegalSize, pc, i), i, pc, x)
  {
    hide HasOperands, Encode, Built;
    match FormatOf(i.op)
    case FmtR | FmtShift | FmtU => BuiltRegister(illegalSize, pc, i, x);
    case FmtI => BuiltImmediate(illegalSize, pc, i, x);
    case FmtB | FmtJ | FmtS | FmtSystem => BuiltOther(illegalSize, pc, i, x);
  }

  lemma BuiltRegister(illegalSize: Word, pc: Word, i: Instr, x: Regs)
    requires InRange(i) && FormatOf(i.op) in {FmtR, FmtShift, FmtU}
    ensures HasOperands(Built(illegalSize, pc, i), i, pc, x)
  {
    hide Encode, Built, DecodeOpcode, ExtractBImm, ExtractJImm, ExtractSImm, ExtractImm12;
    hide RdField, Rs1Field, Rs2Field, Imm20Field, Wrap;
    BuiltShape(illegalSize, pc, i);
  }

  lemma BuiltImmediate(illegalSize: Word, pc: Word, i: Instr, x: Regs)
    requires InRange(i) && FormatOf(i.op) == FmtI
    ensures HasOperands(Built(illegalSize, pc, i), i, pc, x)
  {
    hide Encode, Built, DecodeOpcode, ExtractBImm, ExtractJImm, ExtractSImm, ExtractImm12;
    hide RdField, Rs1Field, Rs2Field, Imm20Field, Wrap;
    BuiltShape(illegalSize, pc, i);
  }

  lemma BuiltOther(illegalSize: Word, pc: Word, i: Instr, x: Regs)
    requires InRange(i) && FormatOf(i.op) in {FmtB, FmtJ, FmtS, FmtSystem}
    ensures HasOperands(Built(illegalSize, pc, i), i, pc, x)
  {
    hide Encode, Built, DecodeOpcode, ExtractBImm, ExtractJImm, ExtractSImm, ExtractImm12;
    hide RdField, Rs1Field, Rs2Field, Imm20Field, Wrap;
    BuiltShape(illegalSize, pc, i);
  }

  /** The instruction object fetched from a laid-out program is the one built for the instruction put
      there, with the operands the manual names. */
  lemma LaidOutProgram(illegalSize: Word, m: Memory, base: Word, program: seq<Instr>, k: nat, x: Regs)
    requires k < |program| && base + 4 * |program| <= TWO32
    requires forall j :: 0 <= j < |program| ==> InRange(program[j])
    ensures var b := Fetch(RV32(illegalSize), Layout(m, base, program), base + 4 * k);
      b == Built(illegalSize, base + 4 * k, program[k]) && HasOperands(b, program[k], base + 4 * k, x)
  {
    hide InRange, Encode, Decode, HasOperands, Layout, Load;
    FetchLayout(m, base, program, k);
    BuiltOperands(illegalSize, base + 4 * k, program[k], x);
  }

  /** A register file in which each register holds its own number. */
  function Numbered(): (x: Regs)
    ensures forall r :: 0 <= r < 32 ==> ReadX(x, r) == r
  {
    seq(32, r requires 0 <= r < 32 => r)
  }

  /** The operands of an instruction object determine the instruction. */
  lemma OperandsDetermine(b: Inst, i: Instr, i': Instr, pc: Word)
    requires InRange(i) && InRange(i')
    requires HasOperands(b, i, pc, Numbered()) && HasOperands(b, i', pc, Numbered())
    ensures i == i'
  {
    hide ReadX, SourceValue, Wrap;
    WrapInjective(i.imm, i'.imm);
  }

  lemma WrapInjective(n: int, n': int)
    requires -0x8000_0000 <= n < 0x8000_0000 && -0x8000_0000 <= n' < 0x8000_0000
    ensures Wrap(n) == Wrap(n') ==> n == n'
  {
  }

  /** Two words decode to the same instruction object only if they are the same, fence, CSR and
      illegal words apart. */
  lemma DecodeInjective(illegalSize: Word, pc: Word, w: Word, w': Word)
    requires Supported(w) && Decode(illegalSize, pc, w) == Decode(illegalSize, pc, w')
    ensures w == w'
  {
    hide DecodeOpcode, Encode, Decoded, InRange, HasOperands;
    EncodeDecode(w);
    EncodeDecode(w');
    BuiltOperands(illegalSize, pc, Decoded(w), Numbered());
    BuiltOperands(illegalSize, pc, Decoded(w'), Numbered());
    OperandsDetermine(Decode(illegalSize, pc, w), Decoded(w), Decoded(w'), pc);
  }

  /** The state an instruction object leaves. */
  function Outcome(b: Inst, x: Regs, m: Memory): Arch
  {
    var e := EffectOf(b, x, m);
    Arch(WriteReg(x, e.rd), Successor(b, e), StoreTo(m, e.store))
  }

  predicate IsComputed(i: Instr)
  {
    FormatOf(i.op) in {FmtR, FmtI, FmtShift, FmtU} && SemFuncOf(i.op) != JalrFunc && !SemFuncOf(i.op).LoadFunc?
  }

  /** The value the semantic function computes from the operands of a computational instruction. */
  function Submitted(i: Instr, x1: Word, x2: Word, pc: Word): Word
    requires InRange(i) && IsComputed(i)
  {
    match SemFuncOf(i.op)
    case BinaryOp(f) =>
      AluResult(f, x1, if FormatOf(i.op) == FmtR then x2 else Wrap(i.imm))
    case LuiFunc => i.imm * 4096
    case AuipcFunc => Wrap(i.imm * 4096 + pc)
  }

  lemma BitwiseIsLogic(a: Word, b: Word)
    ensures LogicWord(Conj, a, b) == BitwiseAnd(a, b)
    ensures LogicWord(Disj, a, b) == BitwiseOr(a, b)
    ensures LogicWord(Excl, a, b) == BitwiseXor(a, b)
  {
    hide Bit, BitOp, FromDigits;
    BitOpIsDigitSum(Conj, a, b, 32, (k: nat) => Bit(a, k) && Bit(b, k));
    BitOpIsDigitSum(Disj, a, b, 32, (k: nat) => Bit(a, k) || Bit(b, k));
    BitOpIsDigitSum(Excl, a, b, 32, (k: nat) => Bit(a, k) != Bit(b, k));
  }

  lemma RegisterResult(i: Instr, x1: Word, x2: Word, pc: Word)
    requires InRange(i) && FormatOf(i.op) == FmtR
    ensures Submitted(i, x1, x2, pc) == Computed(i, x1, x2, pc)
  {
    hide LogicWord, BitwiseAnd, BitwiseOr, BitwiseXor, ShiftRight, ShiftRightSigned;
    BitwiseIsLogic(x1, x2);
  }

  lemma ImmediateResult(i: Instr, x1: Word, x2: Word, pc: Word)
    requires InRange(i) && IsComputed(i) && FormatOf(i.op) == FmtI
    ensures Submitted(i, x1, x2, pc) == Computed(i, x1, x2, pc)
  {
    hide LogicWord, BitwiseAnd, BitwiseOr, BitwiseXor, ShiftRight, ShiftRightSigned;
    BitwiseIsLogic(x1, Wrap(i.imm));
    WrapSum(x1, i.imm);
  }

  lemma ShiftResult(i: Instr, x1: Word, x2: Word, pc: Word)
    requires InRange(i) && FormatOf(i.op) == FmtShift
    ensures Submitted(i, x1, x2, pc) == Computed(i, x1, x2, pc)
  {
    hide Pow2, LogicWord, BitwiseAnd, BitwiseOr, BitwiseXor, ShiftRightSigned;
    assert Wrap(i.imm) % 32 == i.imm;
    if i.op == Srai { SignedShiftFills(x1, i.imm); }
  }

  lemma UpperResult(i: Instr, x1: Word, x2: Word, pc: Word)
    requires InRange(i) && FormatOf(i.op) == FmtU
    ensures Submitted(i, x1, x2, pc) == Computed(i, x1, x2, pc)
  {
  }

  lemma ComputedEffect(b: Inst, i: Instr, x: Regs, pc: Word, m: Memory)
    requires InRange(i) && IsComputed(i) && HasOperands(b, i, pc, x)
    ensures EffectOf(b, x, m) == Written(RdDest(i.rd), Submitted(i, ReadX(x, i.rs1), ReadX(x, i.rs2), pc))
  {
    hide AluResult, ReadX;
  }

  lemma ComputedRefines(b: Inst, i: Instr, x: Regs, pc: Word, m: Memory)
    requires InRange(i) && IsComputed(i) && HasOperands(b, i, pc, x)
    ensures Outcome(b, x, m) == ManualNext(i, x, pc, m)
  {
    hide EffectOf, Submitted, Computed;
    var x1, x2 := ReadX(x, i.rs1), ReadX(x, i.rs2);
    ComputedEffect(b, i, x, pc, m);
    match FormatOf(i.op) {
      case FmtR => RegisterResult(i, x1, x2, pc);
      case FmtI => ImmediateResult(i, x1, x2, pc);
      case FmtShift => ShiftResult(i, x1, x2, pc);
      case FmtU => UpperResult(i, x1, x2, pc);
    }
    DestWritesX(RdDest(i.rd), i.rd, x, Computed(i, x1, x2, pc));
  }

  lemma BranchRefines(b: Inst, i: Instr, x: Regs, pc: Word, m: Memory)
    requires InRange(i) && FormatOf(i.op) == FmtB && HasOperands(b, i, pc, x)
    ensures Outcome(b, x, m) == ManualNext(i, x, pc, m)
  {
    hide AluResult, Extend, Load, Computed;
    WrapSum(pc, i.imm);
  }

  lemma JumpEffect(b: Inst, i: Instr, x: Regs, pc: Word, m: Memory)
    requires InRange(i) && (i.op == Jal || i.op == Jalr) && HasOperands(b, i, pc, x)
    ensures var target := Wrap((if i.op == Jal then pc else ReadX(x, i.rs1)) + i.imm);
      EffectOf(b, x, m) == Effect(Written(RdDest(i.rd), Wrap(pc + 4)).rd, Some(target), None, false)
  {
    hide AluResult, Extend, Load, Holds, Wrap, ReadX, Value;
    WrapSum(pc, i.imm);
    WrapSum(ReadX(x, i.rs1), i.imm);
  }

  lemma JumpRefines(b: Inst, i: Instr, x: Regs, pc: Word, m: Memory)
    requires InRange(i) && (i.op == Jal || i.op == Jalr) && HasOperands(b, i, pc, x)
    ensures var s, t := Outcome(b, x, m), ManualNext(i, x, pc, m);
      && s.x == t.x && s.mem == t.mem
      && (s.pc == t.pc <==> !OddTarget(i, x))
  {
    hide EffectOf, HasOperands, Computed, LoadResult, StoreResult;
    JumpEffect(b, i, x, pc, m);
    DestWritesX(RdDest(i.rd), i.rd, x, Wrap(pc + 4));
  }

  lemma StoreEffect(b: Inst, i: Instr, x: Regs, pc: Word, m: Memory)
    requires InRange(i) && FormatOf(i.op) == FmtS && HasOperands(b, i, pc, x)
    ensures var a, n := Wrap(ReadX(x, i.rs1) + i.imm), AccessSize(i.op);
      && b.address == pc && b.size == 4
      && EffectOf(b, x, m) == NO_EFFECT.(store := Some(Poke(a, n, LowBytes(ReadX(x, i.rs2), n))))
  {
    hide LowBytes, AluResult, Holds, Extend, Load;
    WrapSum(ReadX(x, i.rs1), i.imm);
  }

  lemma StoreRefines(b: Inst, i: Instr, x: Regs, pc: Word, m: Memory)
    requires InRange(i) && FormatOf(i.op) == FmtS && !Straddles(i, x) && HasOperands(b, i, pc, x)
    ensures Agree(Outcome(b, x, m), ManualNext(i, x, pc, m))
  {
    hide EffectOf, HasOperands, StoreResult, Store, LowBytes, Wrap, Computed, LoadResult;
    StoreEffect(b, i, x, pc, m);
    StoredInSpace(m, Wrap(ReadX(x, i.rs1) + i.imm), AccessSize(i.op), ReadX(x, i.rs2));
  }

  lemma StoredInSpace(m: Memory, a: Word, n: Size, v: Word)
    requires a + n <= TWO32
    ensures Same(Store(m, a, n, LowBytes(v, n)), StoreResult(m, a, n, v))
  {
    hide ByteAt, LowBytes;
    LowBytesOf(v, n);
  }

  lemma LoadEffect(b: Inst, i: Instr, x: Regs, pc: Word, m: Memory)
    requires InRange(i) && SemFuncOf(i.op).LoadFunc? && HasOperands(b, i, pc, x)
    ensures var a, n, signed := Wrap(ReadX(x, i.rs1) + i.imm), AccessSize(i.op), i.op == Lb || i.op == Lh;
      && b.address == pc && b.size == 4
      && EffectOf(b, x, m) == Written(RdDest(i.rd), Extend(Load(m, a, n), n, signed))
  {
    hide Extend, Load, Straddles, AluResult, Holds, Wrap, ReadX, Value;
    WrapSum(ReadX(x, i.rs1), i.imm);
  }

  lemma LoadOutcome(b: Inst, i: Instr, x: Regs, pc: Word, m: Memory)
    requires InRange(i) && SemFuncOf(i.op).LoadFunc? && HasOperands(b, i, pc, x)
    ensures var a, n, signed := Wrap(ReadX(x, i.rs1) + i.imm), AccessSize(i.op), i.op == Lb || i.op == Lh;
      Outcome(b, x, m) == Arch(SetX(x, i.rd, Extend(Load(m, a, n), n, signed)), Wrap(pc + 4), m)
  {
    hide EffectOf, Extend, Load, HasOperands;
    var a, n, signed := Wrap(ReadX(x, i.rs1) + i.imm), AccessSize(i.op), i.op == Lb || i.op == Lh;
    LoadEffect(b, i, x, pc, m);
    DestWritesX(RdDest(i.rd), i.rd, x, Extend(Load(m, a, n), n, signed));
  }

  lemma ManualLoad(i: Instr, x: Regs, pc: Word, m: Memory)
    requires InRange(i) && SemFuncOf(i.op).LoadFunc?
    ensures var a, n, signed := Wrap(ReadX(x, i.rs1) + i.imm), AccessSize(i.op), i.op == Lb || i.op == Lh;
      ManualNext(i, x, pc, m) == Arch(SetX(x, i.rd, LoadResult(m, a, n, signed)), Wrap(pc + 4), m)
  {
    hide LoadResult, Wrap, StoreResult, Computed;
  }

  lemma LoadRefines(b: Inst, i: Instr, x: Regs, pc: Word, m: Memory)
    requires InRange(i) && SemFuncOf(i.op).LoadFunc? && !Straddles(i, x) && HasOperands(b, i, pc, x)
    ensures Outcome(b, x, m) == ManualNext(i, x, pc, m)
  {
    hide Outcome, ManualNext, LoadResult, Extend, Load, HasOperands, Wrap;
    ManualLoad(i, x, pc, m);
    var a, n, signed := Wrap(ReadX(x, i.rs1) + i.imm), AccessSize(i.op), i.op == Lb || i.op == Lh;
    LoadOutcome(b, i, x, pc, m);
    if i.rd != 0 { LoadedInSpace(m, a, n, signed); }
  }

  lemma LoadedInSpace(m: Memory, a: Word, n: Size, signed: bool)
    requires a + n <= TWO32
    ensures Extend(Load(m, a, n), n, signed) == LoadResult(m, a, n, signed)
  {
    hide LittleEndian, Load;
    LittleEndianInSpace(m, a, n);
    SmallMod(Load(m, a, n), Span(n));
  }

  lemma LittleEndianInSpace(m: Memory, a: Word, n: Size)
    requires a + n <= TWO32
    ensures LittleEndian(m, a, n) == Load(m, a, n)
  {
    hide ByteInSpace, Get;
    forall k | a <= k < a + n ensures ByteInSpace(m, k) == Get(m, k) { ByteBelow(m, k); }
  }

  lemma ByteBelow(m: Memory, k: Addr)
    requires 0 <= k < TWO32
    ensures ByteInSpace(m, k) == Get(m, k)
  {
    SmallMod(k, TWO32);
  }

  lemma SmallMod(v: int, d: int)
    requires 0 <= v < d
    ensures v % d == v
  {
  }

  lemma NextRefines(b: Inst, i: Instr, x: Regs, pc: Word, m: Memory)
    requires InRange(i) && !Straddles(i, x) && HasOperands(b, i, pc, x) && i.op != Ebreak
    ensures Agree(Outcome(b, x, m), ManualNext(i, x, pc, m)) <==> !OddTarget(i, x)
  {
    hide Outcome, ManualNext, HasOperands, Straddles;
    if FormatOf(i.op) == FmtB { BranchRefines(b, i, x, pc, m); }
    else if i.op == Jal || i.op == Jalr { JumpRefines(b, i, x, pc, m); }
    else if FormatOf(i.op) == FmtS { StoreRefines(b, i, x, pc, m); }
    else if SemFuncOf(i.op).LoadFunc? { LoadRefines(b, i, x, pc, m); }
    else { ComputedRefines(b, i, x, pc, m); }
  }

  /** A transfer goes to the sum, except that an indirect jump drops bit 0. */
  lemma TransferTarget(i: Instr, x: Regs, pc: Word, m: Memory)
    requires InRange(i) && Transfers(i, x)
    ensures var t := TargetSum(i, x, pc);
      ManualNext(i, x, pc, m).pc == if i.op == Jalr then t - t % 2 else t
  {
    hide Computed, LoadResult, StoreResult, Wrap;
  }

  /** The simulator executes a supported instruction as the manual says exactly when it is no ebreak
      and no transfer to a target that is not four-byte aligned, an access over the end of the
      address space apart. */
  lemma OutcomeRefines(b: Inst, i: Instr, x: Regs, pc: Word, m: Memory)
    requires InRange(i) && !Straddles(i, x) && HasOperands(b, i, pc, x)
    ensures Conforms(Outcome(b, x, m), ManualExecute(i, x, pc, m)) <==> !Misaligned(i, x, pc) && i.op != Ebreak
  {
    hide Outcome, ManualNext, HasOperands, Straddles, Agree;
    if i.op != Ebreak {
      NextRefines(b, i, x, pc, m);
      if Transfers(i, x) { TransferTarget(i, x, pc, m); }
    }
  }

  // ---------------------------------------------------------------- steps and runs of the machine

  predicate IsFence(w: Word)
  {
    DecodeOpcode(w) == Fence
  }

  /** One instruction at an aligned pc. Section 2.7: a fence orders memory accesses as other harts see
      them, and does nothing else. */
  function ManualStep(a: Arch): Execution
  {
    var w := LittleEndian(a.mem, a.pc, 4);
    if a.pc % 4 != 0 then Outside
    else if IsFence(w) then Retires(a.(pc := Wrap(a.pc + 4)))
    else if !Supported(w) then Outside
    else
      EncodeDecode(w);
      ManualExecute(Decoded(w), a.x, a.pc, a.mem)
  }

  /** n instructions, or as far as the first that does not retire. */
  function ManualRun(a: Arch, n: nat): Execution
    decreases n
  {
    if n == 0 then Retires(a)
    else match ManualStep(a)
         case Retires(s) => ManualRun(s, n - 1)
         case _ => ManualStep(a)
  }

  /** The next instruction is aligned, one the decoder supports, and no access over the end of the
      address space. */
  predicate Ordinary(a: Arch)
  {
    var w := LoadWord(a.mem, a.pc);
    a.pc % 4 == 0 && (IsFence(w) || (Supported(w) && (EncodeDecode(w); !Straddles(Decoded(w), a.x))))
  }

  /** The next instruction is an ebreak or a transfer to a target that is not aligned. */
  predicate Departs(a: Arch)
    requires Ordinary(a)
  {
    var w := LoadWord(a.mem, a.pc);
    if IsFence(w) then false
    else
      EncodeDecode(w);
      Decoded(w).op == Ebreak || Misaligned(Decoded(w), a.x, a.pc)
  }

  lemma SupportedIsNoFence(w: Word)
    requires Supported(w)
    ensures !IsFence(w)
  {
    hide DecodeOpcode;
  }

  lemma FetchInSpace(a: Arch)
    requires a.pc % 4 == 0
    ensures LittleEndian(a.mem, a.pc, 4) == LoadWord(a.mem, a.pc)
  {
    LittleEndianInSpace(a.mem, a.pc, 4);
  }

  lemma LowNibbles(imm: int, bits: int)
    requires 0 <= imm < 0x1000 && (bits == imm || bits == imm + 0xFFFF_F000)
    ensures bits / 0x100 % 16 == imm / 0x100 && bits / 0x10 % 16 == imm / 0x10 % 16 && bits % 16 == imm % 16
  {
    if bits != imm {
      DivUnique(bits, 0x100, imm / 0x100 + 0xFF_FFF0, imm % 0x100);
      DivUnique(bits, 0x10, imm / 0x10 + 0xFFF_FF00, imm % 0x10);
    }
  }

  /** The operand of a fence carries its mode, predecessor and successor fields, sign-extended. */
  lemma FenceOperand(illegalSize: Word, address: Word, w: Word, x: Regs)
    requires IsFence(w)
    ensures var i := Decode(illegalSize, address, w);
      && |i.sources| == 1 && |i.dests| == 0
      && var bits, imm := Value(i.sources[0], x), w / 0x10_0000;
         bits / 0x100 % 16 == imm / 0x100 && bits / 0x10 % 16 == imm / 0x10 % 16 && bits % 16 == imm % 16
  {
    var i := Decode(illegalSize, address, w);
    assert i.sources == [Imm(Wrap(ExtractImm12(w)))];
    hide DecodeOpcode, Decode;
    FieldAbove(w);
    LowNibbles(Imm12Field(w), Wrap(ExtractImm12(w)));
  }

  lemma FieldAbove(w: Word)
    ensures Imm12Field(w) == w / 0x10_0000
  {
  }

  lemma FenceRefines(illegalSize: Word, a: Arch)
    requires a.pc % 4 == 0 && IsFence(LoadWord(a.mem, a.pc))
    ensures Conforms(Step(RV32(illegalSize), a), ManualStep(a))
  {
    hide DecodeOpcode, Load, LittleEndian;
    FetchInSpace(a);
    var i := Fetch(RV32(illegalSize), a.mem, a.pc);
    assert i.op == Fence && i.size == 4 && i.address == a.pc;
    assert EffectOf(i, a.x, a.mem) == NO_EFFECT;
  }

  /** Whatever the word, a CSR instruction is four bytes long and does nothing else, and a word that is
      no instruction has the size given for it and does nothing else. */
  lemma NoEffectStep(illegalSize: Word, a: Arch)
    requires DecodeOpcode(LoadWord(a.mem, a.pc)) in {Csrs, CsrwNr, CsrsNw, Illegal}
    ensures var size := if DecodeOpcode(LoadWord(a.mem, a.pc)) == Illegal then illegalSize else 4;
      Step(RV32(illegalSize), a) == a.(pc := Wrap(a.pc + size))
  {
    hide DecodeOpcode, Load;
  }

  /** One step of the plain machine is the manual's step exactly when it does not depart. */
  lemma StepRefines(illegalSize: Word, a: Arch)
    requires Ordinary(a)
    ensures Conforms(Step(RV32(illegalSize), a), ManualStep(a)) <==> !Departs(a)
  {
    hide Decoded, Encode, InRange, EffectOf, Decode, ManualExecute, LoadWord, Supported, Straddles, Misaligned,
         LittleEndian, Conforms, IsFence;
    var w := LoadWord(a.mem, a.pc);
    if IsFence(w) {
      FenceRefines(illegalSize, a);
    } else {
      EncodeDecode(w);
      FetchInSpace(a);
      var i := Decoded(w);
      var b := Built(illegalSize, a.pc, i);
      BuiltOperands(illegalSize, a.pc, i, a.x);
      OutcomeRefines(b, i, a.x, a.pc, a.mem);
      assert Step(RV32(illegalSize), a) == Outcome(b, a.x, a.mem);
    }
  }

  /** The states that the manual's run goes through have ordinary next instructions. */
  predicate OrdinaryRun(a: Arch, n: nat)
    decreases n
  {
    n > 0 ==> Ordinary(a) && match ManualStep(a)
                             case Retires(s) => OrdinaryRun(s, n - 1)
                             case _ => true
  }

  /** None of the n instructions departs. */
  predicate NeverDeparts(a: Arch, n: nat)
    requires OrdinaryRun(a, n)
    decreases n
  {
    n > 0 ==> !Departs(a) && match ManualStep(a)
                             case Retires(s) => NeverDeparts(s, n - 1)
                             case _ => true
  }

  /** The first n instructions are ordinary and do not depart. */
  predicate ByTheBook(a: Arch, n: nat)
  {
    OrdinaryRun(a, n) && NeverDeparts(a, n)
  }

  /** The plain machine follows the manual for as long as no instruction departs. */
  lemma {:induction false} RunRefines(illegalSize: Word, a: Arch, n: nat)
    requires ByTheBook(a, n)
    ensures Conforms(Run(RV32(illegalSize), a, n), ManualRun(a, n))
    decreases n
  {
    hide Ordinary, Departs, ManualStep, Step, RV32;
    if n > 0 {
      var isa := RV32(illegalSize);
      StepRefines(illegalSize, a);
      Rv32Framed(illegalSize);
      var s := ManualStep(a).state;
      RunAgrees(isa, Step(isa, a), s, n - 1);
      RunRefines(illegalSize, s, n - 1);
    }
  }

  /** It follows the manual at every point of a run exactly when no instruction of it departs. */
  lemma {:induction false} RunRefinesExactly(illegalSize: Word, a: Arch, n: nat)
    requires OrdinaryRun(a, n)
    ensures (forall k: nat :: k <= n ==> Conforms(Run(RV32(illegalSize), a, k), ManualRun(a, k)))
            <==> NeverDeparts(a, n)
    decreases n
  {
    hide Ordinary, Departs, ManualStep, Step, RV32;
    if NeverDeparts(a, n) {
      forall k: nat | k <= n
        ensures Conforms(Run(RV32(illegalSize), a, k), ManualRun(a, k))
      {
        ShorterByTheBook(a, n, k);
        RunRefines(illegalSize, a, k);
      }
    } else {
      DepartureShows(illegalSize, a, n);
    }
  }

  lemma {:induction false} ShorterByTheBook(a: Arch, n: nat, k: nat)
    requires ByTheBook(a, n) && k <= n
    ensures ByTheBook(a, k)
    decreases k
  {
    hide Ordinary, Departs, ManualStep;
    if k > 0 && ManualStep(a).Retires? { ShorterByTheBook(ManualStep(a).state, n - 1, k - 1); }
  }

  /** A run in which an instruction departs shows it. */
  lemma {:induction false} DepartureShows(illegalSize: Word, a: Arch, n: nat)
    requires OrdinaryRun(a, n) && !NeverDeparts(a, n)
    ensures exists k: nat :: k <= n && !Conforms(Run(RV32(illegalSize), a, k), ManualRun(a, k))
    decreases n
  {
    hide Ordinary, Departs, ManualStep, Step, RV32;
    var isa := RV32(illegalSize);
    StepRefines(illegalSize, a);
    RunOne(isa, a);
    if Departs(a) {
      assert !Conforms(Run(isa, a, 1), ManualRun(a, 1));
    } else {
      var s := ManualStep(a).state;
      DepartureShows(illegalSize, s, n - 1);
      var k: nat :| k <= n - 1 && !Conforms(Run(isa, s, k), ManualRun(s, k));
      Rv32Framed(illegalSize);
      RunAgrees(isa, Step(isa, a), s, k);
      assert !Conforms(Run(isa, a, k + 1), ManualRun(a, k + 1));
    }
  }

  lemma RunOne(isa: InstructionSet, a: Arch)
    ensures Run(isa, a, 1) == Step(isa, a)
    ensures ManualRun(a, 1) == ManualStep(a)
  {
    hide Step, ManualStep;
    assert Run(isa, a, 1) == Run(isa, Step(isa, a), 0);
    match ManualStep(a) {
      case Retires(s) => assert ManualRun(a, 1) == ManualRun(s, 0);
      case Raises(_) =>
      case Outside =>
    }
  }

  // ---------------------------------------------------------------- the end of the address space

  /** A data access agrees with the manual on every memory exactly when it does not run over the
      end of the address space. */
  lemma StraddleExact(b: Inst, i: Instr, x: Regs, pc: Word)
    requires InRange(i) && HasOperands(b, i, pc, x)
    requires FormatOf(i.op) == FmtS || SemFuncOf(i.op).LoadFunc?
    ensures (forall m :: Conforms(Outcome(b, x, m), ManualExecute(i, x, pc, m))) <==> !Straddles(i, x)
  {
    hide Outcome, ManualNext, HasOperands;
    if Straddles(i, x) {
      var m := if FormatOf(i.op) == FmtS then StoreWitness(i, x) else map[TWO32 := 1];
      if FormatOf(i.op) == FmtS { StoreStraddles(b, i, x, pc, m); } else { LoadStraddles(b, i, x, pc, m); }
      assert !Conforms(Outcome(b, x, m), ManualExecute(i, x, pc, m));
    } else {
      forall m
        ensures Conforms(Outcome(b, x, m), ManualExecute(i, x, pc, m))
      {
        OutcomeRefines(b, i, x, pc, m);
      }
    }
  }

  /** A memory whose byte after the last address differs from the byte stored there. */
  function StoreWitness(i: Instr, x: Regs): Memory
    requires InRange(i) && Straddles(i, x)
  {
    map[TWO32 := if ByteAt(ReadX(x, i.rs2), TWO32 - Wrap(ReadX(x, i.rs1) + i.imm)) == 1 then 2 else 1]
  }

  lemma StoreStraddles(b: Inst, i: Instr, x: Regs, pc: Word, m: Memory)
    requires InRange(i) && FormatOf(i.op) == FmtS && Straddles(i, x) && HasOperands(b, i, pc, x)
    requires Get(m, TWO32) != ByteAt(ReadX(x, i.rs2), TWO32 - Wrap(ReadX(x, i.rs1) + i.imm))
    ensures !Agree(Outcome(b, x, m), ManualNext(i, x, pc, m))
  {
    hide EffectOf, HasOperands, Wrap, Computed, LoadResult, ByteAt, LowBytes;
    StoreEffect(b, i, x, pc, m);
    var a, n, v := Wrap(ReadX(x, i.rs1) + i.imm), AccessSize(i.op), ReadX(x, i.rs2);
    LowBytesOf(v, n);
    assert Get(Store(m, a, n, LowBytes(v, n)), TWO32) == ByteAt(v, TWO32 - a);
    StoreResultInside(m, a, n, v);
    assert Get(StoreResult(m, a, n, v), TWO32) == Get(m, TWO32);
  }

  lemma StoreResultInside(m: Memory, a: Word, n: Size, v: Word)
    ensures Get(StoreResult(m, a, n, v), TWO32) == Get(m, TWO32)
  {
    hide ByteAt;
  }

  lemma LoadStraddles(b: Inst, i: Instr, x: Regs, pc: Word, m: Memory)
    requires InRange(i) && SemFuncOf(i.op).LoadFunc? && i.rd != 0 && Straddles(i, x) && HasOperands(b, i, pc, x)
    requires m == map[TWO32 := 1]
    ensures !Agree(Outcome(b, x, m), ManualNext(i, x, pc, m))
  {
    hide Outcome, ManualNext, HasOperands, Wrap, LoadResult, Extend, Load, Straddles;
    ManualLoad(i, x, pc, m);
    var a, n, signed := Wrap(ReadX(x, i.rs1) + i.imm), AccessSize(i.op), i.op == Lb || i.op == Lh;
    LoadOutcome(b, i, x, pc, m);
    StraddleAmount(i, x);
    LoadedOutside(m, a, n, signed);
    assert SetX(x, i.rd, Extend(Load(m, a, n), n, signed))[i.rd] == Extend(Load(m, a, n), n, signed);
    assert SetX(x, i.rd, LoadResult(m, a, n, signed))[i.rd] == LoadResult(m, a, n, signed);
  }

  lemma StraddleAmount(i: Instr, x: Regs)
    requires InRange(i) && Straddles(i, x)
    ensures Wrap(ReadX(x, i.rs1) + i.imm) + AccessSize(i.op) > TWO32
  {
  }

  lemma LoadedOutside(m: Memory, a: Word, n: Size, signed: bool)
    requires m == map[TWO32 := 1] && a + n > TWO32
    ensures Extend(Load(m, a, n), n, signed) != LoadResult(m, a, n, signed)
  {
    assert forall k :: ByteInSpace(m, k) == 0;
    assert LittleEndian(m, a, n) == 0;
    assert forall k: int :: k != TWO32 ==> Get(m, k) == 0;
    var j := TWO32 - a;
    assert Load(m, a, n) == if j == 1 then 0x100 else if j == 2 then 0x1_0000 else 0x100_0000;
  }

  // ---------------------------------------------------------------- two-instruction sequences

  /** The immediates by which an upper-immediate instruction and a 12-bit addition make up v. */
  function UpperPart(v: Word): (u: nat)
    ensures u < 0x10_0000
  {
    (v + 0x800) / 0x1000 % 0x10_0000
  }

  function LowerPart(v: Word): (l: int)
    ensures -2048 <= l < 2048
  {
    AsSigned(v % 0x1000, 0x1000)
  }

  lemma PartsMakeUp(v: Word)
    ensures Wrap(UpperPart(v) * 0x1000 + LowerPart(v)) == v
  {
    var h, l := v / 0x1000, v % 0x1000;
    if l >= 0x800 {
      assert (v + 0x800) / 0x1000 == h + 1;
      if h == 0xF_FFFF { WrapCongruent(v, v - TWO32, 1); }
    } else {
      assert (v + 0x800) / 0x1000 == h;
    }
  }

  /** The word at the pc is the encoding of the instruction. */
  ghost predicate At(a: Arch, i: Instr)
  {
    InRange(i) && LoadWord(a.mem, a.pc) == Encode(i)
  }

  lemma ComputedStep(illegalSize: Word, a: Arch, i: Instr)
    requires At(a, i) && IsComputed(i)
    ensures Step(RV32(illegalSize), a)
            == Arch(SetX(a.x, i.rd, Computed(i, ReadX(a.x, i.rs1), ReadX(a.x, i.rs2), a.pc)), Wrap(a.pc + 4), a.mem)
  {
    hide Encode, InRange, EffectOf, Decode, LoadWord, Computed, HasOperands;
    var b := Built(illegalSize, a.pc, i);
    BuiltOperands(illegalSize, a.pc, i, a.x);
    ComputedRefines(b, i, a.x, a.pc, a.mem);
    assert Step(RV32(illegalSize), a) == Outcome(b, a.x, a.mem);
  }

  lemma JumpStep(illegalSize: Word, a: Arch, i: Instr)
    requires At(a, i) && (i.op == Jal || i.op == Jalr)
    ensures var target := Wrap((if i.op == Jal then a.pc else ReadX(a.x, i.rs1)) + i.imm);
      Step(RV32(illegalSize), a) == Arch(SetX(a.x, i.rd, Wrap(a.pc + 4)), target, a.mem)
  {
    hide Encode, InRange, EffectOf, Decode, LoadWord, HasOperands;
    var b := Built(illegalSize, a.pc, i);
    BuiltOperands(illegalSize, a.pc, i, a.x);
    JumpEffect(b, i, a.x, a.pc, a.mem);
    DestWritesX(RdDest(i.rd), i.rd, a.x, Wrap(a.pc + 4));
    assert Step(RV32(illegalSize), a) == Outcome(b, a.x, a.mem);
  }

  /** lui then addi on one register leaves any chosen 32-bit value there. */
  lemma LuiAddi(illegalSize: Word, a: Arch, rd: nat, v: Word)
    requires 0 < rd < 32
    requires LoadWord(a.mem, a.pc) == Encode(Instr(Lui, rd, 0, 0, UpperPart(v)))
    requires LoadWord(a.mem, Wrap(a.pc + 4)) == Encode(Instr(Addi, rd, rd, 0, LowerPart(v)))
    ensures Run(RV32(illegalSize), a, 2) == Arch(a.x[rd := v], Wrap(a.pc + 8), a.mem)
  {
    hide Encode, Step, RV32, LoadWord, UpperPart, LowerPart, Run, Wrap;
    var isa, lui, addi := RV32(illegalSize), Instr(Lui, rd, 0, 0, UpperPart(v)), Instr(Addi, rd, rd, 0, LowerPart(v));
    ComputedStep(illegalSize, a, lui);
    ComputedStep(illegalSize, Step(isa, a), addi);
    PartsMakeUp(v);
    WrapSum(a.pc + 4, 4);
    RunTwo(isa, a);
  }

  /** auipc then jalr reaches any chosen target, whatever register takes the link. */
  lemma AuipcJalr(illegalSize: Word, a: Arch, rd: nat, link: nat, target: Word)
    requires 0 < rd < 32 && link < 32
    requires LoadWord(a.mem, a.pc) == Encode(Instr(Auipc, rd, 0, 0, UpperPart(Wrap(target - a.pc))))
    requires LoadWord(a.mem, Wrap(a.pc + 4)) == Encode(Instr(Jalr, link, rd, 0, LowerPart(Wrap(target - a.pc))))
    ensures var base := Wrap(a.pc + UpperPart(Wrap(target - a.pc)) * 0x1000);
      Run(RV32(illegalSize), a, 2) == Arch(SetX(a.x[rd := base], link, Wrap(a.pc + 8)), target, a.mem)
  {
    hide Encode, Step, RV32, LoadWord, UpperPart, LowerPart, Run, Wrap;
    var offset := Wrap(target - a.pc);
    var isa, jalr := RV32(illegalSize), Instr(Jalr, link, rd, 0, LowerPart(offset));
    var base := Wrap(a.pc + UpperPart(offset) * 0x1000);
    AuipcStep(illegalSize, a, rd, offset);
    var a1 := Arch(a.x[rd := base], Wrap(a.pc + 4), a.mem);
    JumpStep(illegalSize, a1, jalr);
    ReachTarget(a.pc, target);
    WrapSum(a.pc + 4, 4);
    RunTwo(isa, a);
  }

  lemma AuipcStep(illegalSize: Word, a: Arch, rd: nat, offset: Word)
    requires 0 < rd < 32
    requires LoadWord(a.mem, a.pc) == Encode(Instr(Auipc, rd, 0, 0, UpperPart(offset)))
    ensures Step(RV32(illegalSize), a)
            == Arch(a.x[rd := Wrap(a.pc + UpperPart(offset) * 0x1000)], Wrap(a.pc + 4), a.mem)
  {
    hide Encode, Step, RV32, LoadWord, UpperPart;
    ComputedStep(illegalSize, a, Instr(Auipc, rd, 0, 0, UpperPart(offset)));
  }

  lemma ReachTarget(pc: Word, target: Word)
    ensures var offset := Wrap(target - pc);
      Wrap(Wrap(pc + UpperPart(offset) * 0x1000) + LowerPart(offset)) == target
  {
    hide Wrap, UpperPart, LowerPart;
    var offset := Wrap(target - pc);
    var u, l := UpperPart(offset) * 0x1000, LowerPart(offset);
    PartsMakeUp(offset);
    WrapSum(pc + u, l);
    WrapSum(pc, u + l);
    WrapSum(pc, target - pc);
    WrapOfWord(target);
  }

  lemma WrapOfWord(w: Word)
    ensures Wrap(w) == w
  {
  }

  lemma RunTwo(isa: InstructionSet, a: Arch)
    ensures Run(isa, a, 2) == Step(isa, Step(isa, a))
  {
    hide Step;
    assert Run(isa, a, 2) == Run(isa, Step(isa, a), 1);
    assert Run(isa, Step(isa, a), 1) == Run(isa, Step(isa, Step(isa, a)), 0);
  }
}
