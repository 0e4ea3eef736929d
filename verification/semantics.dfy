/** What executing one decoded instruction reads and writes. */
module Semantics {
  import opened Words
  import opened FlatMemory
  import opened BinFormat
  import opened Isa

  /** The values held by registers x0 to x31. */
  type Regs = x: seq<Word> | |x| == 32
    witness [0, 0, 0, 0, 0, 0, 0, 0, 0, 0, 0, 0, 0, 0, 0, 0, 0, 0, 0, 0, 0, 0, 0, 0, 0, 0, 0, 0, 0, 0, 0, 0]

  function ZeroRegs(): Regs
  {
    seq(32, _ => 0)
  }

  datatype RegWrite = RegWrite(r: GuestReg, v: Word)

  /** The register write, pc write, store and trap of one instruction. */
  datatype Effect = Effect(rd: Option<RegWrite>, target: Option<Word>, store: Option<Poke>, ebreak: bool)

  const NO_EFFECT := Effect(None, None, None, false)

  function Value(s: Source, x: Regs): Word
  {
    match s
    case Reg(r) => x[r]
    case Zero => 0
    case Imm(v) => v
    case CsrRead => 0
  }

  function AluResult(f: Alu, a: Word, b: Word): Word
  {
    match f
    case AluAdd => Wrap(a + b)
    case AluSub => Wrap(a - b)
    case AluLogic(g) => LogicWord(g, a, b)
    case AluSll => ShiftLeft(a, b % 32)
    case AluSrl => ShiftRight(a, b % 32)
    case AluSra => ShiftRightSigned(a, b % 32)
    case AluSltu => if a < b then 1 else 0
  }

  predicate Holds(c: Cond, a: Word, b: Word)
  {
    match c
    case CondEq => a == b
    case CondNe => a != b
    case CondLt => Signed(a) < Signed(b)
    case CondGe => Signed(a) >= Signed(b)
    case CondLtu => a < b
    case CondGeu => a >= b
  }

  /** The value LoadValueChild reads from a buffer of n bytes, as a signed or an unsigned type. */
  function Extend(v: Word, n: Size, signed: bool): Word
  {
    if signed && v % Span(n) >= Span(n) / 2 then Wrap(v % Span(n) - Span(n)) else v % Span(n)
  }

  function AddressOf(i: Inst, x: Regs): Word
    requires SemFuncOf(i.op).StoreFunc? || SemFuncOf(i.op).LoadFunc?
  {
    Wrap(Value(i.sources[0], x) + Value(i.sources[1], x))
  }

  /** The part of an effect that a value submitted to a destination operand has. */
  function Written(d: Dest, v: Word): Effect
  {
    match d
    case X(r) => NO_EFFECT.(rd := Some(RegWrite(r, v)))
    case Pc => NO_EFFECT.(target := Some(v))
    case DevNull | CsrWrite => NO_EFFECT
  }

  /** The effect of a jump: the target goes to destination 0 and the link to destination 1. */
  function Jumped(i: Inst, target: Word): Effect
    requires |i.dests| == 2
  {
    var link := Wrap(i.address + i.size);
    Effect(Written(i.dests[1], link).rd, Written(i.dests[0], target).target, None, false)
  }

  function EffectOf(i: Inst, x: Regs, m: Memory): Effect
  {
    match SemFuncOf(i.op)
    case BinaryOp(f) => Written(i.dests[0], AluResult(f, Value(i.sources[0], x), Value(i.sources[1], x)))
    case LuiFunc => Written(i.dests[0], Value(i.sources[0], x))
    case AuipcFunc => Written(i.dests[0], Wrap(Value(i.sources[0], x) + i.address))
    case BranchFunc(c) =>
      if Holds(c, Value(i.sources[0], x), Value(i.sources[1], x)) then
        Written(i.dests[0], Wrap(Value(i.sources[2], x) + i.address))
      else
        NO_EFFECT
    case JalFunc => Jumped(i, Wrap(Value(i.sources[0], x) + i.address))
    case JalrFunc => Jumped(i, Wrap(Value(i.sources[1], x) + Value(i.sources[0], x)))
    case StoreFunc(n) => NO_EFFECT.(store := Some(Poke(AddressOf(i, x), n, LowBytes(Value(i.sources[2], x), n))))
    case LoadFunc(n, signed) => Written(i.dests[0], Extend(Load(m, AddressOf(i, x), n), n, signed))
    case EbreakFunc => NO_EFFECT.(ebreak := true)
    case NoEffect => NO_EFFECT
  }

  // ---------------------------------------------------------------- applying an effect

  function WriteReg(x: Regs, w: Option<RegWrite>): Regs
  {
    match w
    case None => x
    case Some(rw) => x[rw.r := rw.v]
  }

  function StoreTo(m: Memory, s: Option<Poke>): Memory
  {
    match s
    case None => m
    case Some(p) => Store(m, p.a, p.n, p.v)
  }

  /** The address after an instruction: its target if it wrote pc, else the fall-through. */
  function Successor(i: Inst, e: Effect): Word
  {
    match e.target
    case Some(t) => t
    case None => Wrap(i.address + i.size)
  }

  // ---------------------------------------------------------------- frames

  /** The bytes of data memory the instruction loads or stores. */
  function Touched(i: Inst, x: Regs): Option<(Addr, Size)>
  {
    match SemFuncOf(i.op)
    case StoreFunc(n) => Some((AddressOf(i, x), n))
    case LoadFunc(n, _) => Some((AddressOf(i, x), n))
    case _ => None
  }

  /** The instruction's effect depends on memory only through the bytes it touches. */
  lemma EffectFrame(i: Inst, x: Regs, m: Memory, m': Memory)
    requires Touched(i, x).Some? ==>
               var (a, n) := Touched(i, x).value; forall k :: a <= k < a + n ==> Get(m, k) == Get(m', k)
    ensures EffectOf(i, x, m) == EffectOf(i, x, m')
  {
  }

  /** It stores only where it touches, and only an ebreak traps, with no other effect. */
  lemma EffectShape(i: Inst, x: Regs, m: Memory)
    ensures var e := EffectOf(i, x, m);
      && (e.store.Some? ==> Touched(i, x) == Some((e.store.value.a, e.store.value.n)))
      && (e.ebreak <==> i.op == Ebreak)
      && (e.ebreak ==> e == NO_EFFECT.(ebreak := true))
  {
  }

  /** What any load finds of what any store put there: the register holds the stored bytes from the
      loaded address on, as a signed or an unsigned number of the loaded width. */
  lemma StoreThenLoad(m: Memory, a: Addr, n: Size, v: Word, b: Addr, k: Size, signed: bool)
    requires a <= b && b + k <= a + n
    ensures var r := Extend(Load(Store(m, a, n, v), b, k), k, signed);
      && LowBytes(r, k) == ShiftRight(v, 8 * (b - a)) % Span(k)
      && if signed then -(Span(k) / 2) <= Signed(r) < Span(k) / 2 else r < Span(k)
  {
    hide Store, Load;
    LoadWithin(m, a, n, v, b, k);
    ExtendKeeps(Load(Store(m, a, n, v), b, k), k, signed);
  }

  /** And of what any sequence of stores put there, overlapping in any way: byte i of the register is
      the one that the last store over that address left. */
  lemma StoresThenLoad(m: Memory, pokes: seq<Poke>, b: Addr, k: Size, signed: bool)
    ensures var r := Extend(Load(StoreAll(m, pokes), b, k), k, signed);
      && (forall i :: 0 <= i < k ==> ByteAt(r, i) == LastByte(m, pokes, b + i))
      && if signed then -(Span(k) / 2) <= Signed(r) < Span(k) / 2 else r < Span(k)
  {
    hide StoreAll, Load, ByteAt, LastByte, Extend, LowBytes;
    var v := Load(StoreAll(m, pokes), b, k);
    var r := Extend(v, k, signed);
    ExtendKeeps(v, k, signed);
    LowBytesOf(r, k);
    forall i | 0 <= i < k
      ensures ByteAt(r, i) == LastByte(m, pokes, b + i)
    {
      LastStoreWins(m, pokes, b + i);
      LoadedByte(StoreAll(m, pokes), b, k, i);
    }
  }

  lemma ExtendKeeps(v: Word, n: Size, signed: bool)
    requires v < Span(n)
    ensures var r := Extend(v, n, signed);
      && LowBytes(r, n) == v
      && if signed then -(Span(n) / 2) <= Signed(r) < Span(n) / 2 else r < Span(n)
  {
    hide Wrap;
    var s: int := Span(n);
    DivUnique(v, s, 0, v);
    if signed && v >= s / 2 { Sign(v, n); }
  }

  lemma Sign(v: Word, n: Size)
    requires Span(n) / 2 <= v < Span(n)
    ensures var r := Wrap(v - Span(n)); Signed(r) == v - Span(n) && r % Span(n) == v
  {
    var s: int := Span(n);
    var r := v - s + TWO32;
    DivUnique(v - s, TWO32, -1, r);
    var q := if n == 1 then 0xFF_FFFF else if n == 2 then 0xFFFF else 0;
    DivUnique(r, s, q, v);
  }
}
