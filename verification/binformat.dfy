/** The instruction formats and the match group of the binary decoder. */
module BinFormat {
  import opened Words

  /** The opcodes the decoder can name. Illegal is the default opcode of an unmatched word. */
  datatype Opcode =
    | Illegal
    | Add | And | Or | Sll | Sltu | Sub | Xor
    | Addi | Andi | Ori | Xori | Slli | Srai | Srli
    | Auipc | Lui
    | Beq | Bge | Bgeu | Blt | Bltu | Bne
    | Jal | Jalr
    | Sb | Sh | Sw
    | Lb | Lbu | Lh | Lhu | Lw
    | Fence | Ebreak | Csrs | CsrwNr | CsrsNw

  // ---------------------------------------------------------------- fields
  // Each field is cut out by dropping the fields below it one after the other.

  function Major(w: Word): nat { w % 128 }
  function Bits25(w: Word): nat { w / 128 }
  function RdField(w: Word): (f: nat) ensures f < 32 { w / 128 % 32 }
  function Func3(w: Word): (f: nat) ensures f < 8 { w / 128 / 32 % 8 }
  function Rs1Field(w: Word): (f: nat) ensures f < 32 { w / 128 / 32 / 8 % 32 }
  function Rs2Field(w: Word): (f: nat) ensures f < 32 { w / 128 / 32 / 8 / 32 % 32 }
  function Func7(w: Word): (f: nat) ensures f < 128 { w / 128 / 32 / 8 / 32 / 32 }
  function Imm12Field(w: Word): (f: nat) ensures f < 4096 { w / 128 / 32 / 8 / 32 }
  function Imm20Field(w: Word): (f: nat) ensures f < 0x10_0000 { w / 128 / 32 }

  /** A signed field of the given span: the upper half of the span stands for negative numbers. */
  function AsSigned(v: int, span: int): int
  {
    if v < span / 2 then v else v - span
  }

  // ---------------------------------------------------------------- immediates and overlays

  function ExtractImm12(w: Word): int
  {
    AsSigned(Imm12Field(w), 0x1000)
  }

  function ExtractUimm5(w: Word): nat
  {
    Rs2Field(w)
  }

  /** uimm20 followed by twelve zero bits. */
  function ExtractUimm32(w: Word): Word
  {
    Imm20Field(w) * 0x1000
  }

  /** imm7[6], imm5[0], imm7[5..0], imm5[4..1], 0. */
  function ExtractBImm(w: Word): int
  {
    var imm7, imm5 := Func7(w), RdField(w);
    AsSigned(imm7 / 64 * 4096 + imm5 % 2 * 2048 + imm7 % 64 * 32 + imm5 / 2 * 2, 0x2000)
  }

  /** imm20[19, 7..0, 8, 18..9], 0. */
  function ExtractJImm(w: Word): int
  {
    var imm20 := Imm20Field(w);
    var low, upper := imm20 % 256, imm20 / 256;
    AsSigned(upper / 2 / 1024 * 0x10_0000 + low * 4096 + upper % 2 * 2048 + upper / 2 % 1024 * 2, 0x20_0000)
  }

  /** imm7, imm5. */
  function ExtractSImm(w: Word): int
  {
    AsSigned(Func7(w) * 32 + RdField(w), 0x1000)
  }

  // ---------------------------------------------------------------- the match group

  /** The constraints of one row of the group. */
  predicate Matches(op: Opcode, w: Word)
  {
    match op
    case Illegal => false
    case Add    => Func7(w) == 0x00 && Func3(w) == 0 && Major(w) == 0x33
    case And    => Func7(w) == 0x00 && Func3(w) == 7 && Major(w) == 0x33
    case Or     => Func7(w) == 0x00 && Func3(w) == 6 && Major(w) == 0x33
    case Sll    => Func7(w) == 0x00 && Func3(w) == 1 && Major(w) == 0x33
    case Sltu   => Func7(w) == 0x00 && Func3(w) == 3 && Major(w) == 0x33
    case Sub    => Func7(w) == 0x20 && Func3(w) == 0 && Major(w) == 0x33
    case Xor    => Func7(w) == 0x00 && Func3(w) == 4 && Major(w) == 0x33
    case Addi   => Func3(w) == 0 && Major(w) == 0x13
    case Andi   => Func3(w) == 7 && Major(w) == 0x13
    case Ori    => Func3(w) == 6 && Major(w) == 0x13
    case Xori   => Func3(w) == 4 && Major(w) == 0x13
    case Slli   => Func7(w) == 0x00 && Func3(w) == 1 && Major(w) == 0x13
    case Srai   => Func7(w) == 0x20 && Func3(w) == 5 && Major(w) == 0x13
    case Srli   => Func7(w) == 0x00 && Func3(w) == 5 && Major(w) == 0x13
    case Auipc  => Major(w) == 0x17
    case Lui    => Major(w) == 0x37
    case Beq    => Major(w) == 0x63 && Func3(w) == 0
    case Bge    => Major(w) == 0x63 && Func3(w) == 5
    case Bgeu   => Major(w) == 0x63 && Func3(w) == 7
    case Blt    => Major(w) == 0x63 && Func3(w) == 4
    case Bltu   => Major(w) == 0x63 && Func3(w) == 6
    case Bne    => Major(w) == 0x63 && Func3(w) == 1
    case Jal    => Major(w) == 0x6F
    case Jalr   => Major(w) == 0x67 && Func3(w) == 0
    case Sb     => Major(w) == 0x23 && Func3(w) == 0
    case Sh     => Major(w) == 0x23 && Func3(w) == 1
    case Sw     => Major(w) == 0x23 && Func3(w) == 2
    case Lb     => Major(w) == 0x03 && Func3(w) == 0
    case Lbu    => Major(w) == 0x03 && Func3(w) == 4
    case Lh     => Major(w) == 0x03 && Func3(w) == 1
    case Lhu    => Major(w) == 0x03 && Func3(w) == 5
    case Lw     => Major(w) == 0x03 && Func3(w) == 2
    case Fence  => Func3(w) == 0 && Major(w) == 0x0F
    case Ebreak => Bits25(w) == 0x2000 && Major(w) == 0x73
    case Csrs   => Func3(w) == 2 && Rs1Field(w) != 0 && Major(w) == 0x73
    case CsrwNr => Func3(w) == 1 && RdField(w) == 0 && Major(w) == 0x73
    case CsrsNw => Func3(w) == 2 && Rs1Field(w) == 0 && Major(w) == 0x73
  }

  /** The rows in the order the group declares them. */
  const REGISTER_ROWS: seq<Opcode> := [Add, And, Or, Sll, Sltu, Sub, Xor]
  const IMMEDIATE_ROWS: seq<Opcode> := [Addi, Andi, Ori, Xori, Slli, Srai, Srli, Auipc, Lui]
  const JUMP_ROWS: seq<Opcode> := [Beq, Bge, Bgeu, Blt, Bltu, Bne, Jal, Jalr]
  const MEMORY_ROWS: seq<Opcode> := [Sb, Sh, Sw, Lb, Lbu, Lh, Lhu, Lw]
  const SYSTEM_ROWS: seq<Opcode> := [Fence, Ebreak, Csrs, CsrwNr, CsrsNw]

  const GROUP: seq<Opcode> := REGISTER_ROWS + IMMEDIATE_ROWS + JUMP_ROWS + MEMORY_ROWS + SYSTEM_ROWS

  /** A decoder that tries the rows of a group one after the other. */
  function FirstMatch(group: seq<Opcode>, w: Word): Opcode
  {
    if group == [] then Illegal
    else if Matches(group[0], w) then group[0]
    else FirstMatch(group[1..], w)
  }

  function DecodeOpcode(w: Word): Opcode
  {
    FirstMatch(GROUP, w)
  }

  /** The same decoder as a decision tree on the major opcode and the function fields. */
  function DecodeTree(w: Word): Opcode
  {
    var f3, f7, major := Func3(w), Func7(w), Major(w);
    if major == 0x33 then
      if f7 == 0 then
        if f3 == 0 then Add else if f3 == 1 then Sll else if f3 == 3 then Sltu
        else if f3 == 4 then Xor else if f3 == 6 then Or else if f3 == 7 then And else Illegal
      else if f7 == 0x20 && f3 == 0 then Sub else Illegal
    else if major == 0x13 then
      if f3 == 0 then Addi else if f3 == 4 then Xori else if f3 == 6 then Ori else if f3 == 7 then Andi
      else if f3 == 1 && f7 == 0 then Slli
      else if f3 == 5 && f7 == 0 then Srli
      else if f3 == 5 && f7 == 0x20 then Srai
      else Illegal
    else if major == 0x17 then Auipc
    else if major == 0x37 then Lui
    else if major == 0x63 then
      if f3 == 0 then Beq else if f3 == 1 then Bne else if f3 == 4 then Blt
      else if f3 == 5 then Bge else if f3 == 6 then Bltu else if f3 == 7 then Bgeu else Illegal
    else if major == 0x6F then Jal
    else if major == 0x67 then if f3 == 0 then Jalr else Illegal
    else if major == 0x23 then
      if f3 == 0 then Sb else if f3 == 1 then Sh else if f3 == 2 then Sw else Illegal
    else if major == 0x03 then
      if f3 == 0 then Lb else if f3 == 1 then Lh else if f3 == 2 then Lw
      else if f3 == 4 then Lbu else if f3 == 5 then Lhu else Illegal
    else if major == 0x0F then if f3 == 0 then Fence else Illegal
    else if major == 0x73 then
      if f3 == 2 then if Rs1Field(w) == 0 then CsrsNw else Csrs
      else if f3 == 1 then if RdField(w) == 0 then CsrwNr else Illegal
      else if Bits25(w) == 0x2000 then Ebreak
      else Illegal
    else Illegal
  }

  lemma EbreakBits(w: Word)
    requires Bits25(w) == 0x2000
    ensures Func3(w) == 0
  {
  }

  lemma MatchFollowsTree(op: Opcode, w: Word)
    requires Matches(op, w)
    ensures op == DecodeTree(w)
  {
    hide Func3, Func7, Major, Bits25, RdField, Rs1Field;
    if op == Ebreak { EbreakBits(w); }
  }

  lemma TreeMatches(w: Word)
    ensures DecodeTree(w) != Illegal ==> Matches(DecodeTree(w), w)
  {
    hide Func3, Func7, Major, Bits25, RdField, Rs1Field;
  }

  lemma MatchIsTree(op: Opcode, w: Word)
    ensures Matches(op, w) <==> op == DecodeTree(w) && op != Illegal
  {
    hide DecodeTree;
    if Matches(op, w) { MatchFollowsTree(op, w); }
    TreeMatches(w);
  }

  /** No word satisfies the constraints of two rows. */
  lemma Unambiguous(op: Opcode, op': Opcode, w: Word)
    requires Matches(op, w) && Matches(op', w)
    ensures op == op'
  {
    MatchIsTree(op, w);
    MatchIsTree(op', w);
  }

  /** First match over any list of rows is the tree's answer when the list has that row. */
  lemma {:induction false} FirstMatchIsTree(group: seq<Opcode>, w: Word)
    ensures FirstMatch(group, w) == if DecodeTree(w) in group then DecodeTree(w) else Illegal
  {
    if group != [] {
      MatchIsTree(group[0], w);
      FirstMatchIsTree(group[1..], w);
    }
  }

  /** The order of the rows does not matter, nor does a repeated row. */
  lemma OrderIrrelevant(group: seq<Opcode>, group': seq<Opcode>, w: Word)
    requires forall op :: op in group <==> op in group'
    ensures FirstMatch(group, w) == FirstMatch(group', w)
  {
    FirstMatchIsTree(group, w);
    FirstMatchIsTree(group', w);
  }

  lemma GroupComplete(op: Opcode)
    requires op != Illegal
    ensures op in GROUP
  {
    assert op in REGISTER_ROWS || op in IMMEDIATE_ROWS || op in JUMP_ROWS || op in MEMORY_ROWS || op in SYSTEM_ROWS;
  }

  /** Decoding with the group as declared gives the tree's answer for every word. */
  lemma DecodeIsTree(w: Word)
    ensures DecodeOpcode(w) == DecodeTree(w)
  {
    FirstMatchIsTree(GROUP, w);
    if DecodeTree(w) != Illegal { GroupComplete(DecodeTree(w)); }
  }

  // ---------------------------------------------------------------- the opcode enumeration

  const OPCODES: nat := 38

  /** The place of an opcode in the counter array. */
  function OpcodeIndex(op: Opcode): (i: nat)
    ensures i < OPCODES
  {
    match op
    case Illegal => 0
    case Add => 1 case And => 2 case Or => 3 case Sll => 4 case Sltu => 5 case Sub => 6 case Xor => 7
    case Addi => 8 case Andi => 9 case Ori => 10 case Xori => 11 case Slli => 12 case Srai => 13 case Srli => 14
    case Auipc => 15 case Lui => 16
    case Beq => 17 case Bge => 18 case Bgeu => 19 case Blt => 20 case Bltu => 21 case Bne => 22
    case Jal => 23 case Jalr => 24
    case Sb => 25 case Sh => 26 case Sw => 27
    case Lb => 28 case Lbu => 29 case Lh => 30 case Lhu => 31 case Lw => 32
    case Fence => 33 case Ebreak => 34 case Csrs => 35 case CsrwNr => 36 case CsrsNw => 37
  }

  /** The opcode that has a place. */
  function OpcodeAt(i: nat): Opcode
  {
    match i
    case 0 => Illegal case 1 => Add case 2 => And case 3 => Or case 4 => Sll case 5 => Sltu case 6 => Sub
    case 7 => Xor case 8 => Addi case 9 => Andi case 10 => Ori case 11 => Xori case 12 => Slli case 13 => Srai
    case 14 => Srli case 15 => Auipc case 16 => Lui case 17 => Beq case 18 => Bge case 19 => Bgeu case 20 => Blt
    case 21 => Bltu case 22 => Bne case 23 => Jal case 24 => Jalr case 25 => Sb case 26 => Sh case 27 => Sw
    case 28 => Lb case 29 => Lbu case 30 => Lh case 31 => Lhu case 32 => Lw case 33 => Fence case 34 => Ebreak
    case 35 => Csrs case 36 => CsrwNr
    case _ => CsrsNw
  }

  lemma IndexBack(op: Opcode)
    ensures OpcodeAt(OpcodeIndex(op)) == op
  {
  }

  /** No two opcodes share a counter. */
  lemma IndicesDiffer(op: Opcode, op': Opcode)
    ensures OpcodeIndex(op) == OpcodeIndex(op') <==> op == op'
  {
    hide OpcodeAt, OpcodeIndex;
    IndexBack(op);
    IndexBack(op');
  }
}
