/** RV32I as the RISC-V Instruction Set Manual, Volume I: Unprivileged ISA (20191213) defines it:
    instructions with signed immediates, their encoding (sections 2.2 and 2.3, opcode listing of
    chapter 24) and their meaning (sections 2.4 to 2.6), for the opcodes the decoder supports. */
module Manual {
  import opened Words
  import opened FlatMemory
  import opened BinFormat
  import opened Machine

  datatype Format = FmtR | FmtI | FmtShift | FmtU | FmtB | FmtJ | FmtS | FmtSystem | FmtOther

  function FormatOf(op: Opcode): Format
  {
    match op
    case Add | And | Or | Sll | Sltu | Sub | Xor => FmtR
    case Addi | Andi | Ori | Xori | Jalr | Lb | Lbu | Lh | Lhu | Lw => FmtI
    case Slli | Srai | Srli => FmtShift
    case Auipc | Lui => FmtU
    case Beq | Bge | Bgeu | Blt | Bltu | Bne => FmtB
    case Jal => FmtJ
    case Sb | Sh | Sw => FmtS
    case Ebreak => FmtSystem
    case Illegal | Fence | Csrs | CsrwNr | CsrsNw => FmtOther
  }

  datatype Instr = Instr(op: Opcode, rd: nat, rs1: nat, rs2: nat, imm: int)

  /** Every operand is in the range its format can carry, and absent operands are zero. */
  predicate InRange(i: Instr)
  {
    && i.rd < 32 && i.rs1 < 32 && i.rs2 < 32
    && match FormatOf(i.op)
       case FmtR => i.imm == 0
       case FmtI => i.rs2 == 0 && -2048 <= i.imm < 2048
       case FmtShift => i.rs2 == 0 && 0 <= i.imm < 32
       case FmtU => i.rs1 == 0 && i.rs2 == 0 && 0 <= i.imm < 0x10_0000
       case FmtB => i.rd == 0 && -4096 <= i.imm < 4096 && i.imm % 2 == 0
       case FmtJ => i.rs1 == 0 && i.rs2 == 0 && -0x10_0000 <= i.imm < 0x10_0000 && i.imm % 2 == 0
       case FmtS => i.rd == 0 && -2048 <= i.imm < 2048
       case FmtSystem => i.rd == 0 && i.rs1 == 0 && i.rs2 == 0 && i.imm == 1
       case FmtOther => false
  }

  // ---------------------------------------------------------------- encoding

  function MajorOpcode(op: Opcode): (n: nat)
    ensures n < 128
  {
    match op
    case Add | And | Or | Sll | Sltu | Sub | Xor => 0x33
    case Addi | Andi | Ori | Xori | Slli | Srai | Srli => 0x13
    case Auipc => 0x17
    case Lui => 0x37
    case Beq | Bge | Bgeu | Blt | Bltu | Bne => 0x63
    case Jal => 0x6F
    case Jalr => 0x67
    case Sb | Sh | Sw => 0x23
    case Lb | Lbu | Lh | Lhu | Lw => 0x03
    case Fence => 0x0F
    case Ebreak | Csrs | CsrwNr | CsrsNw => 0x73
    case Illegal => 0
  }

  function Funct3(op: Opcode): (n: nat)
    ensures n < 8
  {
    match op
    case Add | Sub | Addi | Beq | Jalr | Sb | Lb | Fence | Ebreak => 0
    case Sll | Slli | Bne | Sh | Lh | CsrwNr => 1
    case Sw | Lw | Csrs | CsrsNw => 2
    case Sltu => 3
    case Xor | Xori | Blt | Lbu => 4
    case Srai | Srli | Bge | Lhu => 5
    case Or | Ori | Bltu => 6
    case And | Andi | Bgeu => 7
    case Auipc | Lui | Jal | Illegal => 0
  }

  function Funct7(op: Opcode): (n: nat)
    ensures n < 128
  {
    if op == Sub || op == Srai then 0x20 else 0
  }

  /** inst[31:25], inst[24:20], inst[19:15], inst[14:12], inst[11:7], inst[6:0]. */
  function Pack(f7: nat, rs2: nat, rs1: nat, f3: nat, rd: nat, opcode: nat): Word
    requires f7 < 128 && rs2 < 32 && rs1 < 32 && f3 < 8 && rd < 32 && opcode < 128
  {
    opcode + rd * 0x80 + f3 * 0x1000 + rs1 * 0x8000 + rs2 * 0x10_0000 + f7 * 0x200_0000
  }

  /** inst[31:12], inst[11:7], inst[6:0]. */
  function PackUpper(imm20: nat, rd: nat, opcode: nat): Word
    requires imm20 < 0x10_0000 && rd < 32 && opcode < 128
  {
    opcode + rd * 0x80 + imm20 * 0x1000
  }

  /** A field of an immediate: drop the bits below 2^k = `from`, keep those below `span`. */
  function ImmBits(imm: int, from: int, span: int): int
    requires from > 0 && span > 0
  {
    imm / from % span
  }

  function Encode(i: Instr): Word
    requires InRange(i)
  {
    var opcode, f3, u := MajorOpcode(i.op), Funct3(i.op), i.imm;
    match FormatOf(i.op)
    case FmtR => Pack(Funct7(i.op), i.rs2, i.rs1, f3, i.rd, opcode)
    case FmtI => Pack(ImmBits(u, 32, 128), ImmBits(u, 1, 32), i.rs1, f3, i.rd, opcode)
    case FmtShift => Pack(Funct7(i.op), u, i.rs1, f3, i.rd, opcode)
    case FmtU => PackUpper(u, i.rd, opcode)
    case FmtB =>     // inst[31] = imm[12], inst[30:25] = imm[10:5], inst[11:8] = imm[4:1], inst[7] = imm[11]
      Pack(ImmBits(u, 4096, 2) * 64 + ImmBits(u, 32, 64), i.rs2, i.rs1, f3,
           ImmBits(u, 2, 16) * 2 + ImmBits(u, 2048, 2), opcode)
    case FmtJ =>     // inst[31] = imm[20], inst[30:21] = imm[10:1], inst[20] = imm[11], inst[19:12] = imm[19:12]
      PackUpper(ImmBits(u, 0x10_0000, 2) * 0x8_0000 + ImmBits(u, 2, 1024) * 512 + ImmBits(u, 2048, 2) * 256
                + ImmBits(u, 4096, 256), i.rd, opcode)
    case FmtS => Pack(ImmBits(u, 32, 128), i.rs2, i.rs1, f3, ImmBits(u, 1, 32), opcode)
    case FmtSystem => Pack(0, 1, 0, 0, 0, opcode)
  }

  /** The instruction that the decoder's opcode and extracted fields describe. */
  function Decoded(w: Word): Instr
  {
    var op := DecodeOpcode(w);
    match FormatOf(op)
    case FmtR => Instr(op, RdField(w), Rs1Field(w), Rs2Field(w), 0)
    case FmtI => Instr(op, RdField(w), Rs1Field(w), 0, ExtractImm12(w))
    case FmtShift => Instr(op, RdField(w), Rs1Field(w), 0, ExtractUimm5(w))
    case FmtU => Instr(op, RdField(w), 0, 0, ExtractUimm32(w) / 0x1000)
    case FmtB => Instr(op, 0, Rs1Field(w), Rs2Field(w), ExtractBImm(w))
    case FmtJ => Instr(op, RdField(w), 0, 0, ExtractJImm(w))
    case FmtS => Instr(op, 0, Rs1Field(w), Rs2Field(w), ExtractSImm(w))
    case FmtSystem => Instr(op, 0, 0, 0, 1)
    case FmtOther => Instr(op, 0, 0, 0, 0)
  }

  /** The words whose opcode has a format of its own here: all but fence, the CSR group and
      the illegal words. */
  predicate Supported(w: Word)
  {
    FormatOf(DecodeOpcode(w)) != FmtOther
  }

  lemma PackFields(f7: nat, rs2: nat, rs1: nat, f3: nat, rd: nat, opcode: nat)
    requires f7 < 128 && rs2 < 32 && rs1 < 32 && f3 < 8 && rd < 32 && opcode < 128
    ensures var w := Pack(f7, rs2, rs1, f3, rd, opcode);
      && Major(w) == opcode && RdField(w) == rd && Func3(w) == f3
      && Rs1Field(w) == rs1 && Rs2Field(w) == rs2 && Func7(w) == f7
      && Imm12Field(w) == rs2 + 32 * f7
      && Imm20Field(w) == f3 + 8 * (rs1 + 32 * (rs2 + 32 * f7))
      && Bits25(w) == rd + 32 * Imm20Field(w)
  {
    var w := Pack(f7, rs2, rs1, f3, rd, opcode);
    var h5 := rs2 + 32 * f7;
    var h4 := rs1 + 32 * h5;
    var h3 := f3 + 8 * h4;
    var h2 := rd + 32 * h3;
    assert w == opcode + 128 * h2;
    assert w / 128 == h2;
    assert h2 / 32 == h3;
    assert h3 / 8 == h4;
    assert h4 / 32 == h5;
  }

  lemma PackUpperFields(imm20: nat, rd: nat, opcode: nat)
    requires imm20 < 0x10_0000 && rd < 32 && opcode < 128
    ensures var w := PackUpper(imm20, rd, opcode);
      Major(w) == opcode && RdField(w) == rd && Imm20Field(w) == imm20
  {
    var w := PackUpper(imm20, rd, opcode);
    assert w / 128 == rd + 32 * imm20;
  }

  /** A word is the packing of its fields. */
  lemma FieldsPack(w: Word)
    ensures Pack(Func7(w), Rs2Field(w), Rs1Field(w), Func3(w), RdField(w), Major(w)) == w
  {
  }

  lemma TreeOfCodes(op: Opcode, w: Word)
    requires FormatOf(op) != FmtOther && Major(w) == MajorOpcode(op)
    requires FormatOf(op) != FmtU && FormatOf(op) != FmtJ && FormatOf(op) != FmtSystem ==> Func3(w) == Funct3(op)
    requires FormatOf(op) == FmtR || FormatOf(op) == FmtShift ==> Func7(w) == Funct7(op)
    requires FormatOf(op) == FmtSystem ==> Bits25(w) == 0x2000
    ensures DecodeTree(w) == op
  {
    hide Func3, Func7, Major, Bits25, RdField, Rs1Field;
    if Bits25(w) == 0x2000 { EbreakBits(w); }
  }

  lemma EncodeOpcode(i: Instr)
    requires InRange(i)
    ensures DecodeOpcode(Encode(i)) == i.op
  {
    hide Encode, DecodeOpcode, DecodeTree, MajorOpcode, Funct3, Funct7;
    EncodeFields(i);
    DecodeIsTree(Encode(i));
    TreeOfCodes(i.op, Encode(i));
  }

  /** Where the fields of an encoded instruction are found again. */
  lemma EncodeFields(i: Instr)
    requires InRange(i)
    ensures var w, u := Encode(i), i.imm;
      && Major(w) == MajorOpcode(i.op)
      && match FormatOf(i.op)
         case FmtR => Func3(w) == Funct3(i.op) && Func7(w) == Funct7(i.op)
                      && RdField(w) == i.rd && Rs1Field(w) == i.rs1 && Rs2Field(w) == i.rs2
         case FmtI => Func3(w) == Funct3(i.op) && RdField(w) == i.rd && Rs1Field(w) == i.rs1
                      && Imm12Field(w) == ImmBits(u, 1, 32) + 32 * ImmBits(u, 32, 128)
         case FmtShift => Func3(w) == Funct3(i.op) && Func7(w) == Funct7(i.op)
                          && RdField(w) == i.rd && Rs1Field(w) == i.rs1 && Rs2Field(w) == u
         case FmtU => RdField(w) == i.rd && Imm20Field(w) == u
         case FmtB => Func3(w) == Funct3(i.op) && Rs1Field(w) == i.rs1 && Rs2Field(w) == i.rs2
                      && Func7(w) == ImmBits(u, 4096, 2) * 64 + ImmBits(u, 32, 64)
                      && RdField(w) == ImmBits(u, 2, 16) * 2 + ImmBits(u, 2048, 2)
         case FmtJ => RdField(w) == i.rd
                      && Imm20Field(w) == ImmBits(u, 0x10_0000, 2) * 0x8_0000 + ImmBits(u, 2, 1024) * 512
                                          + ImmBits(u, 2048, 2) * 256 + ImmBits(u, 4096, 256)
         case FmtS => Func3(w) == Funct3(i.op) && Rs1Field(w) == i.rs1 && Rs2Field(w) == i.rs2
                      && Func7(w) == ImmBits(u, 32, 128) && RdField(w) == ImmBits(u, 1, 32)
         case FmtSystem => Bits25(w) == 0x2000
  {
    var u, opcode, f3 := i.imm, MajorOpcode(i.op), Funct3(i.op);
    hide MajorOpcode, Funct3, Funct7;
    match FormatOf(i.op)
    case FmtR => PackFields(Funct7(i.op), i.rs2, i.rs1, f3, i.rd, opcode);
    case FmtI => PackFields(ImmBits(u, 32, 128), ImmBits(u, 1, 32), i.rs1, f3, i.rd, opcode);
    case FmtShift => PackFields(Funct7(i.op), u, i.rs1, f3, i.rd, opcode);
    case FmtU => PackUpperFields(u, i.rd, opcode);
    case FmtB =>
      PackFields(ImmBits(u, 4096, 2) * 64 + ImmBits(u, 32, 64), i.rs2, i.rs1, f3,
                 ImmBits(u, 2, 16) * 2 + ImmBits(u, 2048, 2), opcode);
    case FmtJ =>
      PackUpperFields(ImmBits(u, 0x10_0000, 2) * 0x8_0000 + ImmBits(u, 2, 1024) * 512 + ImmBits(u, 2048, 2) * 256
                      + ImmBits(u, 4096, 256), i.rd, opcode);
    case FmtS => PackFields(ImmBits(u, 32, 128), i.rs2, i.rs1, f3, ImmBits(u, 1, 32), opcode);
    case FmtSystem => PackFields(0, 1, 0, 0, 0, opcode);
  }

  // ---------------------------------------------------------------- round trips

  lemma ImmediateI(u: int)
    requires -2048 <= u < 2048
    ensures AsSigned(ImmBits(u, 1, 32) + 32 * ImmBits(u, 32, 128), 0x1000) == u
  {
    assert u == u % 32 + 32 * (u / 32);
  }

  /** The branch offset: imm[12], imm[11], imm[10:5], imm[4:1] leave their places and come back. */
  lemma ImmediateB(u: int, imm7: nat, imm5: nat)
    requires -4096 <= u < 4096 && u % 2 == 0
    requires imm7 == ImmBits(u, 4096, 2) * 64 + ImmBits(u, 32, 64)
    requires imm5 == ImmBits(u, 2, 16) * 2 + ImmBits(u, 2048, 2)
    ensures AsSigned(imm7 / 64 * 4096 + imm5 % 2 * 2048 + imm7 % 64 * 32 + imm5 / 2 * 2, 0x2000) == u
  {
    var q1 := u / 2;
    var q2 := q1 / 16;
    var q3 := q2 / 64;
    assert u / 32 == q2 && u / 2048 == q3 && u / 4096 == q3 / 2;
    assert imm7 / 64 == q3 / 2 % 2 && imm7 % 64 == q2 % 64;
    assert imm5 / 2 == q1 % 16 && imm5 % 2 == q3 % 2;
    assert u == 2 * (q1 % 16) + 32 * (q2 % 64) + 2048 * (q3 % 2) + 4096 * (q3 / 2);
  }

  /** The jump offset: imm[20], imm[10:1], imm[11], imm[19:12] leave their places and come back. */
  lemma ImmediateJ(u: int, imm20: nat)
    requires -0x10_0000 <= u < 0x10_0000 && u % 2 == 0
    requires imm20 == ImmBits(u, 0x10_0000, 2) * 0x8_0000 + ImmBits(u, 2, 1024) * 512 + ImmBits(u, 2048, 2) * 256
                      + ImmBits(u, 4096, 256)
    ensures var low, upper := imm20 % 256, imm20 / 256;
      AsSigned(upper / 2 / 1024 * 0x10_0000 + low * 4096 + upper % 2 * 2048 + upper / 2 % 1024 * 2, 0x20_0000) == u
  {
    var q1 := u / 2;
    var q2 := q1 / 1024;
    var q3 := q2 / 2;
    var q4 := q3 / 256;
    assert u / 2048 == q2 && u / 4096 == q3 && u / 0x10_0000 == q4;
    OverlayJ(q4 % 2, q1 % 1024, q2 % 2, q3 % 256, imm20);
    assert u == 2 * (q1 % 1024) + 2048 * (q2 % 2) + 4096 * (q3 % 256) + 0x10_0000 * q4;
  }

  lemma OverlayJ(b20: nat, b10: nat, b11: nat, b19: nat, imm20: nat)
    requires b20 < 2 && b10 < 1024 && b11 < 2 && b19 < 256
    requires imm20 == b20 * 0x8_0000 + b10 * 512 + b11 * 256 + b19
    ensures imm20 % 256 == b19 && imm20 / 256 % 2 == b11
    ensures imm20 / 256 / 2 % 1024 == b10 && imm20 / 256 / 2 / 1024 == b20
  {
    assert imm20 / 256 == b11 + 2 * (b10 + 1024 * b20);
  }

  /** Decoding an encoded instruction gives it back. */
  lemma DecodeEncode(i: Instr)
    requires InRange(i)
    ensures Supported(Encode(i)) && Decoded(Encode(i)) == i
  {
    EncodeOpcode(i);
    EncodeFields(i);
    DecodedFrom(i, Encode(i));
  }

  lemma DecodedFrom(i: Instr, w: Word)
    requires InRange(i) && w == Encode(i) && DecodeOpcode(w) == i.op
    ensures Decoded(w) == i
  {
    hide Encode, DecodeOpcode, MajorOpcode, Funct3, Funct7, Major;
    hide RdField, Rs1Field, Rs2Field, Func3, Func7, Imm12Field, Imm20Field, Bits25;
    EncodeFields(i);
    match FormatOf(i.op)
    case FmtR =>
    case FmtI => ImmediateI(i.imm);
    case FmtShift =>
    case FmtU =>
    case FmtB => ImmediateB(i.imm, Func7(w), RdField(w));
    case FmtJ => ImmediateJ(i.imm, Imm20Field(w));
    case FmtS => ImmediateI(i.imm);
    case FmtSystem =>
  }

  // The other direction: the immediate extracted from a word has the fields it was put together from.

  lemma ExtractedI(w: Word)
    ensures var u := ExtractImm12(w);
      -2048 <= u < 2048 && ImmBits(u, 1, 32) == Rs2Field(w) && ImmBits(u, 32, 128) == Func7(w)
  {
    var v := Imm12Field(w);
    assert v == v % 32 + 32 * (v / 32);
  }

  lemma ExtractedS(w: Word)
    ensures var u := ExtractSImm(w);
      -2048 <= u < 2048 && ImmBits(u, 1, 32) == RdField(w) && ImmBits(u, 32, 128) == Func7(w)
  {
  }

  lemma UnscrambleB(u: int, b4: int, b10: int, b11: int, sign: int)
    requires 0 <= b4 < 16 && 0 <= b10 < 64 && 0 <= b11 < 2
    requires u == 2 * b4 + 32 * b10 + 2048 * b11 + 4096 * sign
    ensures u / 2 % 16 == b4 && u / 32 % 64 == b10 && u / 2048 % 2 == b11 && u / 4096 == sign
  {
    var h11 := b11 + 2 * sign;
    var h10 := b10 + 64 * h11;
    assert u / 2 == b4 + 16 * h10;
    assert u / 32 == h10;
    assert u / 2048 == h11;
  }

  lemma UnscrambleJ(u: int, b10: int, b11: int, b19: int, sign: int)
    requires 0 <= b10 < 1024 && 0 <= b11 < 2 && 0 <= b19 < 256
    requires u == 2 * b10 + 2048 * b11 + 4096 * b19 + 0x10_0000 * sign
    ensures u / 2 % 1024 == b10 && u / 2048 % 2 == b11 && u / 4096 % 256 == b19 && u / 0x10_0000 == sign
  {
    var h19 := b19 + 256 * sign;
    var h11 := b11 + 2 * h19;
    DivUnique(u, 2, b10 + 1024 * h11, 0);
    DivUnique(b10 + 1024 * h11, 1024, h11, b10);
    DivUnique(u, 2048, h11, 2 * b10);
    DivUnique(h11, 2, h19, b11);
    DivUnique(u, 4096, h19, 2 * b10 + 2048 * b11);
    DivUnique(h19, 256, sign, b19);
    DivUnique(u, 0x10_0000, sign, 2 * b10 + 2048 * b11 + 4096 * b19);
  }

  lemma ExtractedB(w: Word)
    ensures var u := ExtractBImm(w);
      && -4096 <= u < 4096 && u % 2 == 0
      && ImmBits(u, 4096, 2) * 64 + ImmBits(u, 32, 64) == Func7(w)
      && ImmBits(u, 2, 16) * 2 + ImmBits(u, 2048, 2) == RdField(w)
  {
    var u, imm7, imm5 := ExtractBImm(w), Func7(w), RdField(w);
    var sign: int := if imm7 / 64 == 1 then -1 else 0;
    UnscrambleB(u, imm5 / 2, imm7 % 64, imm5 % 2, sign);
  }

  lemma Imm20Parts(v: int)
    requires 0 <= v < 0x10_0000
    ensures var low, upper := v % 256, v / 256;
      && v == low + 256 * (upper % 2) + 512 * (upper / 2 % 1024) + 0x8_0000 * (upper / 2 / 1024)
      && 0 <= upper / 2 / 1024 < 2
  {
    var upper: int := v / 256;
    var rest: int := upper / 2;
    assert v == 256 * upper + v % 256;
    assert upper == 2 * rest + upper % 2;
    assert rest == 1024 * (rest / 1024) + rest % 1024;
  }

  lemma ImmediateOfJ(w: Word, b10: int, b11: int, b19: int, top: int)
    requires var low, upper := Imm20Field(w) % 256, Imm20Field(w) / 256;
      b19 == low && b11 == upper % 2 && b10 == upper / 2 % 1024 && top == upper / 2 / 1024
    ensures ExtractJImm(w) == 2 * b10 + 2048 * b11 + 4096 * b19 - 0x10_0000 * top
  {
    hide Imm20Field;
    Imm20Parts(Imm20Field(w));
  }

  lemma FieldsOfJ(u: int, b10: int, b11: int, b19: int, top: int)
    requires 0 <= b10 < 1024 && 0 <= b11 < 2 && 0 <= b19 < 256 && 0 <= top < 2
    requires u == 2 * b10 + 2048 * b11 + 4096 * b19 - 0x10_0000 * top
    ensures -0x10_0000 <= u < 0x10_0000 && u % 2 == 0
    ensures ImmBits(u, 0x10_0000, 2) == top && ImmBits(u, 2, 1024) == b10
    ensures ImmBits(u, 2048, 2) == b11 && ImmBits(u, 4096, 256) == b19
  {
    UnscrambleJ(u, b10, b11, b19, -top);
    DivUnique(u, 2, b10 + 1024 * b11 + 2048 * b19 - 0x8_0000 * top, 0);
  }

  lemma ExtractedJ(w: Word)
    ensures var u := ExtractJImm(w);
      && -0x10_0000 <= u < 0x10_0000 && u % 2 == 0
      && ImmBits(u, 0x10_0000, 2) * 0x8_0000 + ImmBits(u, 2, 1024) * 512 + ImmBits(u, 2048, 2) * 256
         + ImmBits(u, 4096, 256) == Imm20Field(w)
  {
    hide Imm20Field, ExtractJImm, ImmBits;
    var imm20 := Imm20Field(w);
    var b19: int, b11: int := imm20 % 256, imm20 / 256 % 2;
    var b10: int, top: int := imm20 / 256 / 2 % 1024, imm20 / 256 / 2 / 1024;
    Imm20Parts(imm20);
    ImmediateOfJ(w, b10, b11, b19, top);
    FieldsOfJ(ExtractJImm(w), b10, b11, b19, top);
  }

  lemma CodesOfTree(w: Word)
    requires FormatOf(DecodeTree(w)) != FmtOther
    ensures var op := DecodeTree(w);
      && Major(w) == MajorOpcode(op)
      && (FormatOf(op) != FmtU && FormatOf(op) != FmtJ ==> Func3(w) == Funct3(op))
      && (FormatOf(op) == FmtR || FormatOf(op) == FmtShift ==> Func7(w) == Funct7(op))
      && (FormatOf(op) == FmtSystem ==> Bits25(w) == 0x2000)
  {
    hide Func3, Func7, Major, Bits25, RdField, Rs1Field;
    if Bits25(w) == 0x2000 { EbreakBits(w); }
  }

  /** Every supported word is the encoding of the instruction decoded from it. */
  lemma EncodeDecode(w: Word)
    requires Supported(w)
    ensures InRange(Decoded(w)) && Encode(Decoded(w)) == w
  {
    DecodeIsTree(w);
    CodesOfTree(w);
    EncodedFrom(w);
  }

  lemma EncodedFrom(w: Word)
    requires Supported(w)
    requires var op := DecodeOpcode(w);
      && Major(w) == MajorOpcode(op)
      && (FormatOf(op) != FmtU && FormatOf(op) != FmtJ ==> Func3(w) == Funct3(op))
      && (FormatOf(op) == FmtR || FormatOf(op) == FmtShift ==> Func7(w) == Funct7(op))
      && (FormatOf(op) == FmtSystem ==> Bits25(w) == 0x2000)
    ensures InRange(Decoded(w)) && Encode(Decoded(w)) == w
  {
    hide DecodeOpcode;
    FieldsPack(w);
    match FormatOf(DecodeOpcode(w))
    case FmtR =>
    case FmtI => ExtractedI(w);
    case FmtShift =>
    case FmtU =>
    case FmtB => ExtractedB(w);
    case FmtJ => ExtractedJ(w);
    case FmtS => ExtractedS(w);
    case FmtSystem =>
  }

  // ---------------------------------------------------------------- programs

  /** The words of a program stored one after the other from a base address. */
  function Layout(m: Memory, base: Addr, program: seq<Instr>): Memory
    requires forall k :: 0 <= k < |program| ==> InRange(program[k])
    decreases |program|
  {
    if program == [] then m
    else Layout(Store(m, base, 4, Encode(program[0])), base + 4, program[1..])
  }

  lemma {:induction false} LayoutBelow(m: Memory, base: Addr, program: seq<Instr>, a: Addr)
    requires forall k :: 0 <= k < |program| ==> InRange(program[k])
    requires a < base
    ensures Get(Layout(m, base, program), a) == Get(m, a)
    decreases |program|
  {
    hide Encode, InRange;
    if program != [] {
      LayoutBelow(Store(m, base, 4, Encode(program[0])), base + 4, program[1..], a);
    }
  }

  /** Each word fetched back from a laid-out program is the encoding of the instruction put there. */
  lemma {:induction false} FetchLayout(m: Memory, base: Addr, program: seq<Instr>, k: nat)
    requires k < |program|
    requires forall j :: 0 <= j < |program| ==> InRange(program[j])
    ensures LoadWord(Layout(m, base, program), base + 4 * k) == Encode(program[k])
    decreases |program|
  {
    hide Encode, InRange, Decoded, Supported, Store, Load, ByteAt;
    var m' := Store(m, base, 4, Encode(program[0]));
    if k == 0 {
      forall a | base <= a < base + 4
        ensures Get(Layout(m', base + 4, program[1..]), a) == Get(m', a)
      {
        LayoutBelow(m', base + 4, program[1..], a);
      }
      LoadSame(Layout(m', base + 4, program[1..]), m', base, 4);
      LoadAfterStore(m, base, 4, Encode(program[0]));
    } else {
      FetchLayout(m', base + 4, program[1..], k - 1);
    }
  }
}
