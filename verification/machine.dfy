/** The plain machine: fetch, decode and execute, with no cache, no buffers and no debugger.
    The instruction set is a record of functions, so that what is proved of the debugger in other
    modules depends on the instruction set only through Framed; RV32 is the record of this
    simulator. */
module Machine {
  import opened Words
  import opened FlatMemory
  import opened BinFormat
  import opened Isa
  import opened Semantics

  datatype InstructionSet = InstructionSet(
    decode: (Word, Word) -> Inst,                        // address, word
    effect: (Inst, Regs, Memory) -> Effect,
    touched: (Inst, Regs) -> Option<(Addr, Size)>)

  const EBREAK: Word := 0x0010_0073

  ghost predicate SameIn(range: Option<(Addr, Size)>, m: Memory, m': Memory)
  {
    range.Some? ==> forall k :: range.value.0 <= k < range.value.0 + range.value.1 ==> Get(m, k) == Get(m', k)
  }

  /** What the debugger relies on: an effect depends on memory only through the bytes it touches,
      stores go where it touches, and the breakpoint word is an ebreak of four bytes. */
  ghost predicate Framed(isa: InstructionSet)
  {
    && (forall a, w :: isa.decode(a, w).address == a)
    && (forall a :: isa.decode(a, EBREAK).op == Ebreak && isa.decode(a, EBREAK).size == 4)
    && (forall i, x, m, m' :: SameIn(isa.touched(i, x), m, m') ==> isa.effect(i, x, m) == isa.effect(i, x, m'))
    && (forall i, x, m :: Shaped(i, isa.effect(i, x, m), isa.touched(i, x)))
  }

  predicate Shaped(i: Inst, e: Effect, touched: Option<(Addr, Size)>)
  {
    && (e.store.Some? ==> touched == Some((e.store.value.a, e.store.value.n)))
    && (e.ebreak <==> i.op == Ebreak)
    && (e.ebreak ==> e == NO_EFFECT.(ebreak := true))
  }

  function RV32(illegalSize: Word): InstructionSet
  {
    InstructionSet((a, w) => Decode(illegalSize, a, w), (i, x, m) => EffectOf(i, x, m), (i, x) => Touched(i, x))
  }

  datatype Arch = Arch(x: Regs, pc: Word, mem: Memory)

  /** Same registers, same pc and the same byte at every address. */
  ghost predicate Agree(a: Arch, b: Arch)
  {
    a.x == b.x && a.pc == b.pc && Same(a.mem, b.mem)
  }

  function Fetch(isa: InstructionSet, m: Memory, pc: Word): Inst
  {
    isa.decode(pc, LoadWord(m, pc))
  }

  /** The state after executing a given instruction. */
  function Execute(isa: InstructionSet, i: Inst, x: Regs, m: Memory): Arch
  {
    var e := isa.effect(i, x, m);
    Arch(WriteReg(x, e.rd), Successor(i, e), StoreTo(m, e.store))
  }

  function Step(isa: InstructionSet, a: Arch): Arch
  {
    Execute(isa, Fetch(isa, a.mem, a.pc), a.x, a.mem)
  }

  function Run(isa: InstructionSet, a: Arch, n: nat): Arch
    decreases n
  {
    if n == 0 then a else Run(isa, Step(isa, a), n - 1)
  }

  lemma {:induction false} RunSplit(isa: InstructionSet, a: Arch, n: nat, k: nat)
    ensures Run(isa, a, n + k) == Run(isa, Run(isa, a, n), k)
    decreases n
  {
    if n > 0 { RunSplit(isa, Step(isa, a), n - 1, k); }
  }

  lemma LoadSame(m: Memory, m': Memory, a: Addr, n: Size)
    requires forall k :: a <= k < a + n ==> Get(m, k) == Get(m', k)
    ensures Load(m, a, n) == Load(m', a, n)
  {
  }

  /** The plain machine does not tell apart memories that hold the same bytes. */
  lemma StepAgrees(isa: InstructionSet, a: Arch, b: Arch)
    requires Framed(isa) && Agree(a, b)
    ensures Agree(Step(isa, a), Step(isa, b))
  {
    LoadSame(a.mem, b.mem, a.pc, 4);
    var i := Fetch(isa, a.mem, a.pc);
    assert SameIn(isa.touched(i, a.x), a.mem, b.mem);
    assert isa.effect(i, a.x, a.mem) == isa.effect(i, a.x, b.mem);
  }

  lemma {:induction false} RunAgrees(isa: InstructionSet, a: Arch, b: Arch, n: nat)
    requires Framed(isa) && Agree(a, b)
    ensures Agree(Run(isa, a, n), Run(isa, b, n))
    decreases n
  {
    if n > 0 {
      StepAgrees(isa, a, b);
      RunAgrees(isa, Step(isa, a), Step(isa, b), n - 1);
    }
  }

  lemma EbreakWord(w: Word)
    requires w == EBREAK
    ensures DecodeOpcode(w) == Ebreak
  {
    DecodeIsTree(w);
    assert w % 128 == 0x73 && w / 128 == 0x2000 && w / 128 / 32 % 8 == 0;
  }

  lemma Rv32Framed(illegalSize: Word)
    ensures Framed(RV32(illegalSize))
  {
    var isa := RV32(illegalSize);
    forall a
      ensures isa.decode(a, EBREAK).op == Ebreak && isa.decode(a, EBREAK).size == 4
    {
      var w := EBREAK;
      EbreakWord(w);
    }
    forall i, x, m, m' | SameIn(isa.touched(i, x), m, m')
      ensures isa.effect(i, x, m) == isa.effect(i, x, m')
    {
      EffectFrame(i, x, m, m');
    }
    forall i, x, m
      ensures Shaped(i, isa.effect(i, x, m), isa.touched(i, x))
    {
      EffectShape(i, x, m);
    }
  }
}
