/** The architectural state as the simulator holds it: each register owns a reference to a data
    buffer, an instruction replaces the buffer of the register it writes, and a buffer whose last
    reference is dropped is recycled. */
module Buffers {
  import opened Words
  import opened FlatMemory
  import opened Isa
  import opened RegisterNames
  import opened Semantics

  /** Register numbers 0 to 31 are x0 to x31. */
  const PC := PC_NUMBER
  const REGISTERS := 33

  /** The values a list of registers has when they hold the given buffers. */
  function Contents(value: seq<Word>, reg: seq<nat>): (x: Regs)
    requires |reg| == REGISTERS && forall k :: 0 <= k < REGISTERS ==> reg[k] < |value|
    ensures forall k :: 0 <= k < 32 ==> x[k] == value[reg[k]]
  {
    seq(32, k requires 0 <= k < 32 => value[reg[k]])
  }

  /** What the registers hold, and which buffer holds the pc. */
  datatype Snapshot = Snapshot(x: Regs, pc: Word, pcBuffer: nat)

  /** The register and pc writes of an effect. The pc has a new buffer exactly when it is written. */
  predicate Moves(was: Snapshot, now: Snapshot, e: Effect)
  {
    && now.x == WriteReg(was.x, e.rd)
    && now.pc == (if e.target.Some? then e.target.value else was.pc)
    && (now.pcBuffer != was.pcBuffer <==> e.target.Some?)
  }

  /** A pc write followed by a register write is a jump with a link. */
  lemma JumpMoves(was: Snapshot, mid: Snapshot, now: Snapshot, i: Inst, target: Word)
    requires DestOps(i.op) == [NextPc, Rd]
    requires Moves(was, mid, Written(i.dests[0], target))
    requires Moves(mid, now, Written(i.dests[1], Wrap(i.address + i.size)))
    ensures Moves(was, now, Jumped(i, target))
  {
  }

  predicate Distinct(s: seq<nat>)
  {
    forall i, j :: 0 <= i < j < |s| ==> s[i] != s[j]
  }

  lemma {:induction false} DistinctCounts(s: seq<nat>, b: nat)
    requires Distinct(s)
    ensures multiset(s)[b] == if b in s then 1 else 0
  {
    if s != [] {
      var front := s[..|s| - 1];
      DistinctCounts(front, b);
      assert s == front + [s[|s| - 1]];
    }
  }

  // ---------------------------------------------------------------- accounting

  /** A count is the number of holders, and exactly the buffers without a holder are free. */
  ghost predicate Counted(refs: seq<nat>, free: set<nat>, held: multiset<nat>)
  {
    && (forall b: nat :: b in held ==> b < |refs|)
    && (forall b: nat :: b < |refs| ==> refs[b] == held[b])
    && (forall b: nat :: b in free <==> b < |refs| && b !in held)
  }

  lemma InitialCounts(refs: seq<nat>, reg: seq<nat>)
    requires |refs| == |reg| && forall k :: 0 <= k < |reg| ==> refs[k] == 1 && reg[k] == k
    ensures Counted(refs, {}, multiset(reg))
  {
    forall b: nat
      ensures multiset(reg)[b] == if b < |reg| then 1 else 0
    {
      DistinctCounts(reg, b);
      if b < |reg| { assert reg[b] == b; }
      assert b in reg <==> b < |reg|;
    }
  }

  lemma CountNew(refs: seq<nat>, free: set<nat>, held: multiset<nat>)
    requires Counted(refs, free, held)
    ensures |refs| !in held && Counted(refs + [1], free, held + multiset{|refs|})
  {
    var held' := held + multiset{|refs|};
    assert held'[|refs|] == 1;
    forall b | 0 <= b < |refs| ensures held'[b] == held[b] {}
  }

  lemma CountReuse(refs: seq<nat>, free: set<nat>, held: multiset<nat>, b: nat)
    requires Counted(refs, free, held) && b in free
    ensures b !in held && b < |refs| && Counted(refs[b := 1], free - {b}, held + multiset{b})
  {
  }

  lemma CountUp(refs: seq<nat>, free: set<nat>, held: multiset<nat>, b: nat)
    requires Counted(refs, free, held) && b in held
    ensures b < |refs| && Counted(refs[b := refs[b] + 1], free, held + multiset{b})
  {
  }

  lemma CountDown(refs: seq<nat>, free: set<nat>, held: multiset<nat>, b: nat)
    requires Counted(refs, free, held) && b in held
    ensures b < |refs| && b !in free && refs[b] == held[b]
    ensures Counted(refs[b := refs[b] - 1], if refs[b] == 1 then free + {b} else free, held - multiset{b})
  {
  }

  lemma NotHeld(reg: seq<nat>, outside: multiset<nat>, b: nat)
    requires b !in multiset(reg) + outside
    ensures b !in reg && b !in outside
  {
    assert b !in multiset(reg);
  }

  /** A register that takes over a reference to its new buffer, and leaves the one it had to somebody
      else, changes no count. */
  lemma HandOver(reg: seq<nat>, outside: multiset<nat>, r: nat, b: nat)
    requires r < |reg| && b in outside
    ensures multiset(reg[r := b]) + (outside - multiset{b} + multiset{reg[r]}) == multiset(reg) + outside
  {
    assert reg[r] in multiset(reg);
  }

  lemma LoadedEffect(i: Inst, x: Regs, m: Memory, n: Size, signed: bool)
    requires SemFuncOf(i.op) == LoadFunc(n, signed)
    ensures var a := Wrap(Value(i.sources[0], x) + Value(i.sources[1], x));
      EffectOf(i, x, m) == Written(i.dests[0], Extend(Load(m, a, n), n, signed))
  {
  }

  lemma JumpedEffect(i: Inst, x: Regs, m: Memory)
    ensures SemFuncOf(i.op).JalFunc? ==>
              EffectOf(i, x, m) == Jumped(i, Wrap(Value(i.sources[0], x) + i.address))
    ensures SemFuncOf(i.op).JalrFunc? ==>
              EffectOf(i, x, m) == Jumped(i, Wrap(Value(i.sources[1], x) + Value(i.sources[0], x)))
  {
    hide Jumped, Value;
  }

  /** Only a store has a store, and only an ebreak traps. */
  lemma OtherParts(i: Inst, x: Regs, m: Memory)
    ensures EffectOf(i, x, m).store.Some? ==> SemFuncOf(i.op).StoreFunc?
    ensures EffectOf(i, x, m).ebreak <==> SemFuncOf(i.op).EbreakFunc?
    ensures SemFuncOf(i.op).EbreakFunc? || SemFuncOf(i.op).NoEffect? ==>
              EffectOf(i, x, m).rd == None && EffectOf(i, x, m).target == None
  {
  }

  class RiscVState {
    var value: seq<Word>        // the contents of each buffer ever created
    var refs: seq<nat>          // its reference count
    var free: set<nat>          // the buffers waiting to be reused
    var reg: seq<nat>           // the buffer of each register
    var mem: Memory
    var registers: map<string, nat>    // register names
    ghost var outside: multiset<nat>   // the references held by anything but a register

    ghost function Holders(): multiset<nat>
      reads this`reg, this`outside
    {
      multiset(reg) + outside
    }

    /** Every register has a buffer. */
    ghost predicate Shape()
      reads this`value, this`reg
    {
      |reg| == REGISTERS && forall k :: 0 <= k < REGISTERS ==> reg[k] < |value|
    }

    /** Conservation, whatever the registers share. */
    ghost predicate Valid()
      reads this`value, this`refs, this`free, this`reg, this`outside
    {
      Shape() && |value| == |refs| && Counted(refs, free, Holders())
    }

    /** No two registers share a buffer, and nobody else holds one of theirs. */
    ghost predicate Exclusive()
      reads this`reg, this`outside
    {
      Distinct(reg) && forall b :: b in reg ==> b !in outside
    }

    function X(): Regs
      requires Shape()
      reads this`value, this`reg
    {
      Contents(value, reg)
    }

    function PcValue(): Word
      requires |reg| == REGISTERS && reg[PC] < |value|
      reads this`value, this`reg
    {
      value[reg[PC]]
    }

    function Registers(): Snapshot
      requires Shape()
      reads this`value, this`reg
    {
      Snapshot(X(), PcValue(), reg[PC])
    }

    constructor ()
      ensures Valid() && Exclusive() && outside == multiset{}
      ensures X() == ZeroRegs() && PcValue() == 0 && mem == map[]
      ensures registers == map[PC_NAME := PC]
    {
      value := seq(REGISTERS, _ => 0);
      refs := seq(REGISTERS, _ => 1);
      free := {};
      reg := seq(REGISTERS, k requires 0 <= k => k);
      mem := map[];
      registers := map[PC_NAME := PC];
      outside := multiset{};
      new;
      InitialCounts(refs, reg);
    }

    // -------------------------------------------------------------- register names

    method AddRegister(name: string, k: nat)
      modifies this`registers
      ensures registers == old(registers)[name := k]
    {
      registers := registers[name := k];
    }

    /** A second name for a register that exists. */
    method AddRegisterAlias(current: string, name: string) returns (found: bool)
      modifies this`registers
      ensures found == (current in old(registers))
      ensures registers == if found then old(registers)[name := old(registers)[current]] else old(registers)
    {
      found := current in registers;
      if found { registers := registers[name := registers[current]]; }
    }

    // -------------------------------------------------------------- the buffer factory

    /** A buffer nobody holds, recycled or new. */
    method Allocate() returns (b: nat)
      requires Valid() && Exclusive()
      modifies this`value, this`refs, this`free, this`outside
      ensures Valid() && Exclusive()
      ensures outside == old(outside) + multiset{b}
      ensures b !in old(outside) && b !in reg && b < |value| && Shape()
      ensures |value| >= old(|value|) && forall c :: 0 <= c < old(|value|) ==> value[c] == old(value[c])
    {
      hide Counted, Distinct;
      if {
        case true =>
          b := |refs|;
          CountNew(refs, free, Holders());
          NotHeld(reg, outside, b);
          assert multiset(reg) + (outside + multiset{b}) == Holders() + multiset{b};
          value, refs, outside := value + [0], refs + [1], outside + multiset{b};
        case free != {} =>
          b :| b in free;
          Reuse(b);
      }
    }

    /** Take a given buffer from the free ones. */
    method Reuse(b: nat)
      requires Valid() && Exclusive() && b in free
      modifies this`refs, this`free, this`outside
      ensures Valid() && Exclusive()
      ensures outside == old(outside) + multiset{b}
      ensures b !in old(outside) && b !in reg && b < |value|
    {
      hide Counted, Distinct;
      CountReuse(refs, free, Holders(), b);
      NotHeld(reg, outside, b);
      assert multiset(reg) + (outside + multiset{b}) == Holders() + multiset{b};
      free, refs, outside := free - {b}, refs[b := 1], outside + multiset{b};
    }

    method Set(b: nat, v: Word)
      requires b < |value|
      modifies this`value
      ensures value == old(value)[b := v]
      ensures old(Valid()) ==> Valid() && Shape()
    {
      value := value[b := v];
    }

    method IncRef(b: nat)
      requires Valid() && b in Holders()
      modifies this`refs, this`outside
      ensures Valid() && outside == old(outside) + multiset{b}
    {
      hide Counted;
      CountUp(refs, free, Holders(), b);
      assert multiset(reg) + (outside + multiset{b}) == Holders() + multiset{b};
      refs := refs[b := refs[b] + 1];
      outside := outside + multiset{b};
    }

    /** Drop a reference; the buffer is recycled with the last one. */
    method DecRef(b: nat)
      requires Valid() && b in outside
      modifies this`refs, this`free, this`outside
      ensures Valid() && outside == old(outside) - multiset{b}
      ensures b in free <==> old(Holders())[b] == 1
      ensures old(Exclusive()) ==> Exclusive()
    {
      hide Counted, Distinct;
      CountDown(refs, free, Holders(), b);
      assert multiset(reg) + (outside - multiset{b}) == Holders() - multiset{b};
      refs := refs[b := refs[b] - 1];
      if refs[b] == 0 { free := free + {b}; }
      outside := outside - multiset{b};
    }

    /** The register's pointer moves to another buffer: it takes over somebody's reference to that one
        and leaves its own behind. */
    method PointTo(r: nat, b: nat)
      requires Valid() && r < REGISTERS && b in outside
      modifies this`reg, this`outside
      ensures Valid() && reg == old(reg)[r := b]
      ensures outside == old(outside) - multiset{b} + multiset{old(reg[r])}
    {
      hide Counted;
      HandOver(reg, outside, r, b);
      HeldBuffers();
      reg, outside := reg[r := b], outside - multiset{b} + multiset{reg[r]};
    }

    /** The register takes a reference to the buffer and drops the one it had. */
    method SetDataBuffer(r: nat, b: nat)
      requires Shape() && Valid() && r < REGISTERS && b in outside
      modifies this`refs, this`free, this`reg, this`outside
      ensures Valid() && reg == old(reg)[r := b] && outside == old(outside)
    {
      hide Valid;
      var was := reg[r];
      assert b in Holders();
      IncRef(b);
      PointTo(r, b);
      DecRef(was);
      assert outside == old(outside);
    }

    /** A zero-latency Submit: the buffer replaces the register's, and the submitter lets go of it. */
    method Submit(r: nat, b: nat)
      requires Valid() && Exclusive() && r < REGISTERS && outside[b] == 1 && b !in reg
      modifies this`refs, this`free, this`reg, this`outside
      ensures Valid() && Exclusive()
      ensures Shape() && reg == old(reg)[r := b] && outside == old(outside) - multiset{b}
      ensures old(reg[r]) in free
    {
      hide Counted;
      SetDataBuffer(r, b);
      DecRef(b);
      ReleasedIsFree(old(reg[r]));
    }

    /** A buffer that has lost its last holder can be the next one allocated. */
    lemma ReleasedIsFree(b: nat)
      requires Valid() && b < |refs| && b !in reg && b !in outside
      ensures b in free
    {
      assert b !in Holders();
    }

    /** Two submissions to pc with nothing between them, where the second buffer allocated is the one
        the first submission released: pc has a new value in the buffer it had at first, and a test of
        the buffer's identity sees no change. */
    method SubmitPcTwice(v: Word, w: Word)
      requires Valid() && Exclusive()
      modifies this`value, this`refs, this`free, this`reg, this`outside
      ensures Shape() && Valid() && Exclusive() && outside == old(outside)
      ensures reg == old(reg) && PcValue() == w
    {
      hide Counted, Distinct, Valid, Exclusive;
      HeldBuffers();
      var pcDb := reg[PC];
      var db := Allocate();
      Set(db, v);
      Submit(PC, db);
      Reuse(pcDb);
      Set(pcDb, w);
      Submit(PC, pcDb);
      assert outside == old(outside);
    }

    // -------------------------------------------------------------- operands

    function Read(s: Source): (v: Word)
      requires Shape()
      reads this`value, this`reg
      ensures v == Value(s, X())
    {
      match s
      case Reg(r) => value[reg[r]]
      case Zero => 0
      case Imm(v) => v
      case CsrRead => 0
    }

    /** The registers own their buffers, the other holders are those given, and what they hold
        still has the contents given. */
    ghost predicate Keeps(held: multiset<nat>, was: seq<Word>)
      reads this`value, this`refs, this`free, this`reg, this`outside
    {
      && Shape() && Valid() && Exclusive() && outside == held
      && (forall b: nat :: b in outside ==> b < |was| && b < |value| && value[b] == was[b])
    }

    /** The registers have made the moves of an effect since the snapshot. */
    ghost predicate Wrote(e: Effect, was: Snapshot)
      requires Shape()
      reads this`value, this`reg
    {
      Moves(was, Registers(), e)
    }

    /** What a register shows is settled by its buffer's contents. */
    twostate lemma SameRegisters()
      requires old(Valid()) && Valid() && reg == old(reg)
      requires forall k :: 0 <= k < REGISTERS ==> value[reg[k]] == old(value[reg[k]])
      ensures Registers() == old(Registers())
    {
      assert X() == old(X());
    }

    /** An instruction that writes nothing keeps everything. */
    lemma NoWrite()
      requires Valid() && Exclusive()
      ensures Keeps(outside, value)
      ensures forall e: Effect :: e.rd == None && e.target == None ==> Wrote(e, Registers())
    {
      HeldBuffers();
    }

    lemma HeldBuffers()
      requires Valid()
      ensures Shape()
      ensures forall b: nat :: b in outside ==> b < |value|
    {
      forall b: nat | b in outside ensures b < |value| { assert b in Holders(); }
    }

    /** Allocate a buffer for a register, set it and submit it. */
    method SetRegister(r: nat, v: Word)
      requires Valid() && Exclusive() && r < REGISTERS
      modifies this`value, this`refs, this`free, this`reg, this`outside
      ensures Keeps(old(outside), old(value))
      ensures reg[r] !in old(reg) && reg == old(reg)[r := reg[r]] && value[reg[r]] == v
      ensures forall k :: 0 <= k < REGISTERS && k != r ==> value[reg[k]] == old(value[reg[k]])
    {
      hide Valid, Exclusive, Distinct;
      HeldBuffers();
      var db := Allocate();
      Set(db, v);
      Submit(r, db);
      assert outside == old(outside);
    }

    /** Allocate a buffer, set it and let it go, as the operand for x0 does. */
    method Discard(v: Word)
      requires Valid() && Exclusive()
      modifies this`value, this`refs, this`free, this`outside
      ensures Keeps(old(outside), old(value))
      ensures forall k :: 0 <= k < REGISTERS ==> value[reg[k]] == old(value[reg[k]])
    {
      hide Valid, Exclusive, Distinct;
      HeldBuffers();
      var db := Allocate();
      Set(db, v);
      DecRef(db);
      assert outside == old(outside);
    }

    /** Set and submit a buffer for a destination operand. */
    method SetDestination(d: Dest, v: Word)
      requires Valid() && Exclusive()
      modifies this`value, this`refs, this`free, this`reg, this`outside
      ensures Keeps(old(outside), old(value)) && Wrote(Written(d, v), old(Registers()))
    {
      hide Counted, Distinct, Exclusive;
      match d {
        case X(r) => SetRegister(r, v);
        case Pc => SetRegister(PC, v);
        case DevNull | CsrWrite => Discard(v);
      }
      assert X() == WriteReg(old(X()), Written(d, v).rd);
    }

    /** Write a register in place, in the buffer it has. No other register shares that buffer. */
    method Overwrite(r: nat, v: Word)
      requires Valid() && Exclusive() && r < REGISTERS
      modifies this`value
      ensures Shape() && Valid() && Exclusive()
      ensures X() == if r < 32 then old(X())[r := v] else old(X())
      ensures PcValue() == if r == PC then v else old(PcValue())
      ensures forall b: nat :: b in outside ==> b < old(|value|) && b < |value| && value[b] == old(value[b])
    {
      hide Counted;
      HeldBuffers();
      Set(reg[r], v);
    }

    // -------------------------------------------------------------- semantic functions

    method BinaryOp(i: Inst, f: Alu)
      requires Valid() && Exclusive() && SemFuncOf(i.op) == SemFunc.BinaryOp(f)
      modifies this`value, this`refs, this`free, this`reg, this`outside
      ensures Keeps(old(outside), old(value)) && Wrote(EffectOf(i, old(X()), mem), old(Registers()))
    {
      hide Counted, Exclusive, AluResult, Written;
      var a, b := Read(i.sources[0]), Read(i.sources[1]);
      SetDestination(i.dests[0], AluResult(f, a, b));
    }

    method UnaryOp(i: Inst)
      requires Valid() && Exclusive() && (SemFuncOf(i.op).LuiFunc? || SemFuncOf(i.op).AuipcFunc?)
      modifies this`value, this`refs, this`free, this`reg, this`outside
      ensures Keeps(old(outside), old(value)) && Wrote(EffectOf(i, old(X()), mem), old(Registers()))
    {
      hide Counted, Exclusive, Written;
      var a := Read(i.sources[0]);
      SetDestination(i.dests[0], if SemFuncOf(i.op).LuiFunc? then a else Wrap(a + i.address));
    }

    method BranchConditional(i: Inst, cond: Cond)
      requires Valid() && Exclusive() && SemFuncOf(i.op) == BranchFunc(cond)
      modifies this`value, this`refs, this`free, this`reg, this`outside
      ensures Keeps(old(outside), old(value)) && Wrote(EffectOf(i, old(X()), mem), old(Registers()))
    {
      hide Exclusive, Counted, Holds, Written;
      HeldBuffers();
      var a, b := Read(i.sources[0]), Read(i.sources[1]);
      if Holds(cond, a, b) {
        var offset := Read(i.sources[2]);
        SetDestination(i.dests[0], Wrap(offset + i.address));
      }
    }

    /** The pc buffer is submitted first and the link register's second. */
    method Jump(i: Inst, target: Word)
      requires Valid() && Exclusive() && (SemFuncOf(i.op).JalFunc? || SemFuncOf(i.op).JalrFunc?)
      modifies this`value, this`refs, this`free, this`reg, this`outside
      ensures Keeps(old(outside), old(value)) && Wrote(Jumped(i, target), old(Registers()))
    {
      hide Valid, Exclusive, Shape, Moves, Written, Jumped, Registers;
      HeldBuffers();
      SetDestination(i.dests[0], target);
      ghost var mid := Registers();
      SetDestination(i.dests[1], Wrap(i.address + i.size));
      JumpMoves(old(Registers()), mid, Registers(), i, target);
    }

    method Jal(i: Inst)
      requires Valid() && Exclusive() && SemFuncOf(i.op).JalFunc?
      modifies this`value, this`refs, this`free, this`reg, this`outside
      ensures Keeps(old(outside), old(value)) && Wrote(EffectOf(i, old(X()), mem), old(Registers()))
    {
      hide Valid, Exclusive, Jumped, EffectOf, Wrote, Registers, Value;
      HeldBuffers();
      JumpedEffect(i, X(), mem);
      var offset := Read(i.sources[0]);
      Jump(i, Wrap(offset + i.address));
    }

    method Jalr(i: Inst)
      requires Valid() && Exclusive() && SemFuncOf(i.op).JalrFunc?
      modifies this`value, this`refs, this`free, this`reg, this`outside
      ensures Keeps(old(outside), old(value)) && Wrote(EffectOf(i, old(X()), mem), old(Registers()))
    {
      hide Valid, Exclusive, Jumped, EffectOf, Wrote, Registers, Value;
      HeldBuffers();
      JumpedEffect(i, X(), mem);
      var base: int, offset: int := Read(i.sources[0]), Read(i.sources[1]);
      Jump(i, Wrap(offset + base));
    }

    /** Store the low bytes of a value through a buffer of its own. */
    method StoreMemory(address: Addr, n: Size, v: Word)
      requires Valid() && Exclusive()
      modifies this`value, this`refs, this`free, this`outside, this`mem
      ensures Keeps(old(outside), old(value)) && mem == Store(old(mem), address, n, v)
      ensures forall k :: 0 <= k < REGISTERS ==> value[reg[k]] == old(value[reg[k]])
    {
      hide Valid, Exclusive, Distinct, Registers, Store;
      HeldBuffers();
      var db := Allocate();
      Set(db, v);
      mem := Store(mem, address, n, value[db]);
      DecRef(db);
      assert outside == old(outside);
    }

    method StoreValue(i: Inst, n: Size)
      requires Valid() && Exclusive() && SemFuncOf(i.op) == StoreFunc(n)
      modifies this`value, this`refs, this`free, this`outside, this`mem
      ensures Keeps(old(outside), old(value)) && Wrote(EffectOf(i, old(X()), old(mem)), old(Registers()))
      ensures mem == StoreTo(old(mem), EffectOf(i, old(X()), old(mem)).store)
    {
      hide Counted, Exclusive, Store, LowBytes;
      var base: int, offset: int := Read(i.sources[0]), Read(i.sources[1]);
      StoreMemory(Wrap(base + offset), n, LowBytes(Read(i.sources[2]), n));
      SameRegisters();
    }

    /** The child of a load: its context holds the loaded value, which goes to the destination. */
    method LoadValueChild(i: Inst, context: LoadContext, n: Size, signed: bool)
      requires Valid() && Exclusive() && SemFuncOf(i.op) == LoadFunc(n, signed)
      requires context.valueDb.Some? && context.valueDb.value in outside && context.valueDb.value < |value|
      modifies this`value, this`refs, this`free, this`reg, this`outside
      ensures Keeps(old(outside), old(value))
      ensures Wrote(Written(i.dests[0], Extend(old(value)[context.valueDb.value], n, signed)), old(Registers()))
    {
      hide Counted, Exclusive, Extend, Written;
      var v := Extend(value[context.valueDb.value], n, signed);
      SetDestination(i.dests[0], v);
    }

    /** Memory fills the buffer and runs the child, with a hold of its own on the context. */
    method LoadMemory(i: Inst, address: Addr, n: Size, signed: bool, db: nat, context: LoadContext)
      requires Valid() && Exclusive() && SemFuncOf(i.op) == LoadFunc(n, signed)
      requires context.Holds(this) && context.valueDb == Some(db) && db !in reg && db < |value|
      modifies this`value, this`refs, this`free, this`reg, this`outside, context
      ensures Shape() && Valid() && Exclusive() && outside == old(outside)
      ensures context.refCount == old(context.refCount) && context.valueDb == Some(db)
      ensures forall b: nat :: b in outside && b != db ==> b < old(|value|) && b < |value| && value[b] == old(value[b])
      ensures Wrote(Written(i.dests[0], Extend(Load(mem, address, n), n, signed)), old(Registers()))
    {
      hide Shape, Valid, Distinct, Load, Extend, Written, Wrote, Registers;
      HeldBuffers();
      Set(db, Load(mem, address, n));
      SameRegisters();
      context.IncRef();
      LoadValueChild(i, context, n, signed);
      context.DecRef(this);
    }

    /** Load through a buffer of its own, which the context releases. */
    method LoadThrough(i: Inst, address: Addr, n: Size, signed: bool)
      requires Valid() && Exclusive() && SemFuncOf(i.op) == LoadFunc(n, signed)
      modifies this`value, this`refs, this`free, this`reg, this`outside
      ensures Keeps(old(outside), old(value))
      ensures Wrote(Written(i.dests[0], Extend(Load(mem, address, n), n, signed)), old(Registers()))
    {
      hide Valid, Exclusive, Load, Extend, Written, Wrote, Registers;
      HeldBuffers();
      var db := Allocate();
      SameRegisters();
      var context := new LoadContext(db);
      LoadMemory(i, address, n, signed, db, context);
      context.DecRef(this);
      assert outside == old(outside);
    }

    method LoadValue(i: Inst, n: Size, signed: bool)
      requires Valid() && Exclusive() && SemFuncOf(i.op) == LoadFunc(n, signed)
      modifies this`value, this`refs, this`free, this`reg, this`outside
      ensures Keeps(old(outside), old(value)) && Wrote(EffectOf(i, old(X()), mem), old(Registers()))
    {
      hide Counted, Exclusive, Load, Extend, Written, EffectOf, Wrote, Registers, Value;
      LoadedEffect(i, X(), mem, n, signed);
      var base: int, offset: int := Read(i.sources[0]), Read(i.sources[1]);
      LoadThrough(i, Wrap(base + offset), n, signed);
    }

    /** Run the semantic function of an instruction; an ebreak is left to the handler. */
    method Execute(i: Inst) returns (ebreak: bool)
      requires Valid() && Exclusive()
      modifies this`value, this`refs, this`free, this`reg, this`outside, this`mem
      ensures Keeps(old(outside), old(value)) && Wrote(EffectOf(i, old(X()), old(mem)), old(Registers()))
      ensures mem == StoreTo(old(mem), EffectOf(i, old(X()), old(mem)).store)
      ensures ebreak == EffectOf(i, old(X()), old(mem)).ebreak
    {
      hide Valid, Exclusive, Extend, Load, Store, AluResult, Semantics.Holds, LowBytes, Written, Value;
      NoWrite();
      OtherParts(i, X(), mem);
      ebreak := false;
      match SemFuncOf(i.op) {
        case BinaryOp(f) => BinaryOp(i, f);
        case LuiFunc | AuipcFunc => UnaryOp(i);
        case BranchFunc(cond) => BranchConditional(i, cond);
        case JalFunc => Jal(i);
        case JalrFunc => Jalr(i);
        case StoreFunc(n) => StoreValue(i, n);
        case LoadFunc(n, signed) => LoadValue(i, n, signed);
        case EbreakFunc => ebreak := true;
        case NoEffect =>
      }
    }
  }

  /** What a load passes to its child: a counted hold on the buffer of the loaded value. */
  class LoadContext {
    var refCount: nat
    var valueDb: Option<nat>

    constructor (db: nat)
      ensures refCount == 1 && valueDb == Some(db)
    {
      refCount, valueDb := 1, Some(db);
    }

    /** A live context owns one reference to its buffer. */
    ghost predicate Holds(state: RiscVState)
      reads this, state`outside
    {
      refCount > 0 && valueDb.Some? && valueDb.value in state.outside
    }

    method IncRef()
      modifies this`refCount
      ensures refCount == old(refCount) + 1
    {
      refCount := refCount + 1;
    }

    /** The buffer is released with the last hold, and only then. */
    method DecRef(state: RiscVState)
      requires state.Valid() && Holds(state)
      modifies this, state`refs, state`free, state`outside
      ensures state.Valid() && refCount == old(refCount) - 1
      ensures refCount > 0 ==> valueDb == old(valueDb) && state.outside == old(state.outside)
                               && state.refs == old(state.refs) && state.free == old(state.free)
      ensures refCount == 0 ==> valueDb == None && state.outside == old(state.outside) - multiset{old(valueDb).value}
      ensures old(state.Exclusive()) ==> state.Exclusive()
    {
      refCount := refCount - 1;
      if refCount == 0 {
        OnRefCountIsZero(state);
        Destroy(state);
      }
    }

    method OnRefCountIsZero(state: RiscVState)
      requires state.Valid() && (valueDb.Some? ==> valueDb.value in state.outside)
      modifies this`valueDb, state`refs, state`free, state`outside
      ensures state.Valid() && valueDb == None && (old(state.Exclusive()) ==> state.Exclusive())
      ensures state.outside
              == old(state.outside) - match old(valueDb) case Some(b) => multiset{b} case None => multiset{}
    {
      if valueDb.Some? { state.DecRef(valueDb.value); }
      valueDb := None;
    }

    /** The destructor drops the buffer if it has not been dropped yet. */
    method Destroy(state: RiscVState)
      requires state.Valid() && (valueDb.Some? ==> valueDb.value in state.outside)
      modifies state`refs, state`free, state`outside
      ensures state.Valid() && (old(state.Exclusive()) ==> state.Exclusive())
      ensures state.outside == old(state.outside) - match valueDb case Some(b) => multiset{b} case None => multiset{}
    {
      if valueDb.Some? { state.DecRef(valueDb.value); }
    }
  }
}
