/** The operand lists and semantic functions of each opcode, and the operand getters that
    turn an operand name into an operand of the word being decoded. */
module Isa {
  import opened Words
  import opened BinFormat

  // ---------------------------------------------------------------- the instruction set table

  datatype SourceOp = Rs1 | Rs2 | BImm12 | Imm12 | UImm5 | JImm20 | SImm12 | UImm20 | CsrSource
  datatype DestOp = Rd | NextPc | CsrDest

  /** Source operands in the order the semantic function indexes them. */
  function SourceOps(op: Opcode): seq<SourceOp>
  {
    match op
    case Add | And | Or | Sll | Sltu | Sub | Xor => [Rs1, Rs2]
    case Addi | Andi | Ori | Xori => [Rs1, Imm12]
    case Slli | Srai | Srli => [Rs1, UImm5]
    case Auipc | Lui => [UImm20]
    case Beq | Bge | Bgeu | Blt | Bltu | Bne => [Rs1, Rs2, BImm12]
    case Jal => [JImm20]
    case Jalr => [Rs1, Imm12]
    case Sb | Sh | Sw => [Rs1, SImm12, Rs2]
    case Lb | Lbu | Lh | Lhu | Lw => [Rs1, Imm12]
    case Fence => [Imm12]
    case Ebreak | Illegal => []
    case Csrs => [Rs1, CsrSource]
    case CsrwNr => [Rs1]
    case CsrsNw => [CsrSource]
  }

  /** Destination operands of the instruction itself, and of its child for the loads. */
  function DestOps(op: Opcode): seq<DestOp>
  {
    match op
    case Add | And | Or | Sll | Sltu | Sub | Xor => [Rd]
    case Addi | Andi | Ori | Xori => [Rd]
    case Slli | Srai | Srli => [Rd]
    case Auipc | Lui => [Rd]
    case Beq | Bge | Bgeu | Blt | Bltu | Bne => [NextPc]
    case Jal | Jalr => [NextPc, Rd]
    case Lb | Lbu | Lh | Lhu | Lw => [Rd]
    case Csrs | CsrsNw => [Rd, CsrDest]
    case CsrwNr => [CsrDest]
    case Sb | Sh | Sw | Fence | Ebreak | Illegal => []
  }

  datatype Alu = AluAdd | AluSub | AluLogic(f: Logic) | AluSll | AluSrl | AluSra | AluSltu
  datatype Cond = CondEq | CondNe | CondLt | CondGe | CondLtu | CondGeu

  datatype SemFunc =
    | BinaryOp(alu: Alu)
    | LuiFunc
    | AuipcFunc
    | BranchFunc(cond: Cond)
    | JalFunc
    | JalrFunc
    | StoreFunc(bytes: int)
    | LoadFunc(bytes: int, signed: bool)
    | EbreakFunc
    | NoEffect

  function SemFuncOf(op: Opcode): SemFunc
  {
    match op
    case Add | Addi => BinaryOp(AluAdd)
    case And | Andi => BinaryOp(AluLogic(Conj))
    case Or | Ori => BinaryOp(AluLogic(Disj))
    case Xor | Xori => BinaryOp(AluLogic(Excl))
    case Sll | Slli => BinaryOp(AluSll)
    case Srli => BinaryOp(AluSrl)
    case Srai => BinaryOp(AluSra)
    case Sltu => BinaryOp(AluSltu)
    case Sub => BinaryOp(AluSub)
    case Lui => LuiFunc
    case Auipc => AuipcFunc
    case Beq => BranchFunc(CondEq)
    case Bne => BranchFunc(CondNe)
    case Blt => BranchFunc(CondLt)
    case Bge => BranchFunc(CondGe)
    case Bltu => BranchFunc(CondLtu)
    case Bgeu => BranchFunc(CondGeu)
    case Jal => JalFunc
    case Jalr => JalrFunc
    case Sb => StoreFunc(1)
    case Sh => StoreFunc(2)
    case Sw => StoreFunc(4)
    case Lb => LoadFunc(1, true)
    case Lbu => LoadFunc(1, false)
    case Lh => LoadFunc(2, true)
    case Lhu => LoadFunc(2, false)
    case Lw => LoadFunc(4, false)
    case Ebreak => EbreakFunc
    case Fence | Csrs | CsrwNr | CsrsNw | Illegal => NoEffect
  }

  // ---------------------------------------------------------------- operands of one instruction

  /** The registers an operand can name: x0 is never reached through a register operand. */
  type GuestReg = n: int | 1 <= n < 32 witness 1

  datatype Source = Reg(r: GuestReg) | Zero | Imm(v: Word) | CsrRead
  datatype Dest = X(d: GuestReg) | DevNull | Pc | CsrWrite

  function RegSource(num: nat): Source
    requires num < 32
  {
    if num == 0 then Zero else Reg(num)
  }

  function GetSource(s: SourceOp, w: Word): Source
  {
    match s
    case Rs1 => RegSource(Rs1Field(w))
    case Rs2 => RegSource(Rs2Field(w))
    case BImm12 => Imm(Wrap(ExtractBImm(w)))
    case Imm12 => Imm(Wrap(ExtractImm12(w)))
    case UImm5 => Imm(ExtractUimm5(w))
    case JImm20 => Imm(Wrap(ExtractJImm(w)))
    case SImm12 => Imm(Wrap(ExtractSImm(w)))
    case UImm20 => Imm(ExtractUimm32(w))
    case CsrSource => CsrRead
  }

  function GetDest(d: DestOp, w: Word): Dest
  {
    match d
    case Rd => if RdField(w) == 0 then DevNull else X(RdField(w))
    case NextPc => Pc
    case CsrDest => CsrWrite
  }

  function GetSources(ops: seq<SourceOp>, w: Word): (ss: seq<Source>)
    ensures |ss| == |ops|
    ensures forall i :: 0 <= i < |ops| ==> ss[i] == GetSource(ops[i], w)
  {
    seq(|ops|, i requires 0 <= i < |ops| => GetSource(ops[i], w))
  }

  function GetDests(ops: seq<DestOp>, w: Word): (ds: seq<Dest>)
    ensures |ds| == |ops|
    ensures forall i :: 0 <= i < |ops| ==> ds[i] == GetDest(ops[i], w)
  {
    seq(|ops|, i requires 0 <= i < |ops| => GetDest(ops[i], w))
  }

  datatype RawInst = Inst(op: Opcode, address: Word, size: Word, sources: seq<Source>, dests: seq<Dest>)

  /** A decoded instruction has the operands its semantic function will ask for. */
  predicate WellFormed(i: RawInst)
  {
    && |i.sources| == |SourceOps(i.op)|
    && |i.dests| == |DestOps(i.op)|
    && (forall k :: 0 <= k < |i.dests| ==> (i.dests[k] == Pc <==> DestOps(i.op)[k] == NextPc))
  }

  type Inst = i: RawInst | WellFormed(i) witness Inst(Illegal, 0, 4, [], [])

  /** The instruction object for a word fetched at an address. The table states size 4 for
      every opcode but the default one, whose size is the parameter illegalSize. */
  function Decode(illegalSize: Word, address: Word, w: Word): Inst
  {
    var op := DecodeOpcode(w);
    Inst(op, address, if op == Illegal then illegalSize else 4,
         GetSources(SourceOps(op), w), GetDests(DestOps(op), w))
  }
}
