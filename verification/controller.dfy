/** The debugger's view of the simulator as a value, and each operation of RV32ITop as a function
    on it. Registers are values here; the buffers that hold them are added in another module. */
module Controller {
  import opened Words
  import opened FlatMemory
  import opened BinFormat
  import opened Isa
  import opened Semantics
  import opened Machine

  datatype RunStatus = Halted | Running | SingleStep
  datatype HaltReason = NoReason | SoftwareBreakpoint | UserRequest

  /** A breakpoint of the manager: the word it replaced, and whether the ebreak is in place. */
  datatype Breakpoint = Breakpoint(saved: Word, enabled: bool)
  type Breakpoints = map<Addr, Breakpoint>

  /** A direct-mapped cache of decoded instructions; an instruction's address is its tag. */
  type Cache = map<int, Inst>
  const CACHE_ENTRIES := 16 * 1024
  const MIN_INSTRUCTION_BYTES := 2

  type Counts = s: seq<nat> | |s| == OPCODES witness seq(OPCODES, _ => 0)

  function ZeroCounts(): Counts
  {
    seq(OPCODES, _ => 0)
  }

  datatype Core = Core(
    x: Regs, pcReg: Word, mem: Memory,
    cache: Cache, bps: Breakpoints,
    previousPc: Word, reason: HaltReason, halted: bool, status: RunStatus,
    opcodeCount: Counts, numInstructions: nat)

  /** A core as constructed: halted, with nothing cached and no breakpoint. */
  function Initial(previousPc: Word): Core
  {
    Core(ZeroRegs(), 0, map[], map[], map[], previousPc, NoReason, false, Halted, ZeroCounts(), 0)
  }

  // ---------------------------------------------------------------- decode cache

  function Slot(address: int): int
  {
    address / MIN_INSTRUCTION_BYTES % CACHE_ENTRIES
  }

  /** Instructions at even addresses compete for a slot exactly if they are a multiple of 32 KiB apart. */
  lemma SlotsClash(a: int, b: int)
    requires a % 2 == 0 && b % 2 == 0
    ensures Slot(a) == Slot(b) <==> (a - b) % 0x8000 == 0
  {
    assert (a - b) / 2 == a / 2 - b / 2;
  }

  predicate Hit(cache: Cache, pc: Word)
  {
    Slot(pc) in cache && cache[Slot(pc)].address == pc
  }

  /** The instruction GetDecodedInstruction returns, decoding it from memory on a miss. */
  function Cached(isa: InstructionSet, cache: Cache, m: Memory, pc: Word): Inst
  {
    if Hit(cache, pc) then cache[Slot(pc)] else Fetch(isa, m, pc)
  }

  /** The cache after GetDecodedInstruction: a miss replaces whatever had the slot. */
  function Filled(isa: InstructionSet, cache: Cache, m: Memory, pc: Word): Cache
  {
    if Hit(cache, pc) then cache else cache[Slot(pc) := Fetch(isa, m, pc)]
  }

  function Invalidate(cache: Cache, address: Addr): Cache
  {
    if Slot(address) in cache && cache[Slot(address)].address == address then cache - {Slot(address)} else cache
  }

  // ---------------------------------------------------------------- breakpoint manager

  function WriteCode(c: Core, a: Addr, w: Word): Core
  {
    c.(mem := Store(c.mem, a, 4, w), cache := Invalidate(c.cache, a))
  }

  function SetBreakpoint(c: Core, a: Addr): Core
  {
    if a in c.bps then c
    else WriteCode(c, a, EBREAK).(bps := c.bps[a := Breakpoint(LoadWord(c.mem, a), true)])
  }

  function DisableBreakpoint(c: Core, a: Addr): Core
  {
    if a in c.bps && c.bps[a].enabled then
      WriteCode(c, a, c.bps[a].saved).(bps := c.bps[a := c.bps[a].(enabled := false)])
    else c
  }

  function EnableBreakpoint(c: Core, a: Addr): Core
  {
    if a in c.bps && !c.bps[a].enabled then
      WriteCode(c, a, EBREAK).(bps := c.bps[a := c.bps[a].(enabled := true)])
    else c
  }

  function ClearBreakpoint(c: Core, a: Addr): Core
  {
    var c1 := DisableBreakpoint(c, a);
    c1.(bps := c1.bps - {a})
  }

  /** Breakpoints cleared one after the other in the order of a list. */
  function ClearAll(c: Core, order: seq<Addr>): Core
    decreases |order|
  {
    if order == [] then c else ClearAll(ClearBreakpoint(c, order[0]), order[1..])
  }

  lemma {:induction false} ClearAllAppend(c: Core, order: seq<Addr>, a: Addr)
    ensures ClearAll(c, order + [a]) == ClearBreakpoint(ClearAll(c, order), a)
    decreases |order|
  {
    hide ClearBreakpoint;
    if order == [] {
      assert ClearAll(c, [a]) == ClearAll(ClearBreakpoint(c, a), []);
      assert order + [a] == [a];
    } else {
      ClearAllAppend(ClearBreakpoint(c, order[0]), order[1..], a);
      assert (order + [a])[1..] == order[1..] + [a];
    }
  }

  lemma SomeKey(keys: set<Addr>)
    requires keys != {}
    ensures exists a: Addr :: a in keys
  {
    forall a: Addr ensures a in keys ==> exists b: Addr :: b in keys {}
  }

  lemma ClearedBreakpoints(c: Core, a: Addr)
    ensures ClearBreakpoint(c, a).bps == c.bps - {a}
  {
    hide Store, Invalidate;
    assert a in c.bps ==> c.bps[a := c.bps[a].(enabled := false)] - {a} == c.bps - {a};
  }

  // ---------------------------------------------------------------- one instruction

  /** Execute a decoded instruction. The ebreak handler requests a halt at a breakpoint address;
      any other ebreak does nothing. */
  function Executed(isa: InstructionSet, c: Core, i: Inst): Core
  {
    var e := isa.effect(i, c.x, c.mem);
    var c1 := c.(x := WriteReg(c.x, e.rd),
                 pcReg := if e.target.Some? then e.target.value else c.pcReg,
                 mem := StoreTo(c.mem, e.store));
    if e.ebreak && i.address in c.bps then c1.(reason := SoftwareBreakpoint, halted := true) else c1
  }

  /** counter_opcode_ of the opcode and counter_num_instructions_ each go up by one. */
  function Tally(c: Core, op: Opcode): Core
  {
    var k := OpcodeIndex(op);
    c.(opcodeCount := c.opcodeCount[k := c.opcodeCount[k] + 1], numInstructions := c.numInstructions + 1)
  }

  /** The counter of one opcode. */
  function CountOf(c: Core, op: Opcode): nat
  {
    c.opcodeCount[OpcodeIndex(op)]
  }

  /** One instruction more is counted, under its own opcode and no other. */
  lemma TallyCounts(c: Core, op: Opcode, other: Opcode)
    ensures Tally(c, op).numInstructions == c.numInstructions + 1
    ensures CountOf(Tally(c, op), other) == CountOf(c, other) + if other == op then 1 else 0
  {
    hide OpcodeIndex;
    IndicesDiffer(op, other);
  }

  lemma DisableKeepsKeys(c: Core, a: Addr)
    ensures DisableBreakpoint(c, a).bps.Keys == c.bps.Keys
  {
    hide WriteCode;
  }

  lemma ExecutedKeepsBps(isa: InstructionSet, c: Core, i: Inst)
    ensures Executed(isa, c, i).bps == c.bps
  {
    hide StoreTo, WriteReg;
  }

  /** Re-enabling a breakpoint that is not there does nothing. */
  lemma EnableMissing(c: Core, a: Addr)
    requires a !in c.bps
    ensures EnableBreakpoint(c, a) == c
  {
  }

  datatype Point = Point(core: Core, next: Word)

  /** One turn of the loop that Step and the worker of Run share: fetch at the local next pc,
      execute, and take the new next pc from the pc register if the instruction wrote it. */
  function Turn(isa: InstructionSet, c: Core, next: Word): Point
  {
    var i := Cached(isa, c.cache, c.mem, next);
    var c1 := Executed(isa, c.(cache := Filled(isa, c.cache, c.mem, next)), i);
    var wrote := isa.effect(i, c.x, c.mem).target.Some?;
    Point(Tally(c1, i.op), if wrote then c1.pcReg else Wrap(next + i.size))
  }

  lemma TurnKeepsStatus(isa: InstructionSet, c: Core, next: Word)
    ensures Turn(isa, c, next).core.status == c.status
  {
    hide Store, StoreTo, WriteReg;
  }

  /** The original instruction under the breakpoint the core stopped at, executed with the
      breakpoint lifted. */
  function StepOver(isa: InstructionSet, c: Core): Core
  {
    var a := c.previousPc;
    var c1 := DisableBreakpoint(c, a);
    var i := Cached(isa, c1.cache, c1.mem, a);
    var c2 := Tally(Executed(isa, c1.(cache := Filled(isa, c1.cache, c1.mem, a)), i), i.op);
    EnableBreakpoint(c2, a).(reason := NoReason)
  }

  // ---------------------------------------------------------------- Step

  datatype LoopEnd = LoopEnd(core: Core, next: Word, last: Word, count: nat)

  /** Up to n turns, stopping after one that leaves halted_ set. The address of the last
      instruction is `last` when there is no turn. */
  function Loop(isa: InstructionSet, c: Core, next: Word, last: Word, n: nat): LoopEnd
    decreases n
  {
    if n == 0 then LoopEnd(c, next, last, 0)
    else
      var p := Turn(isa, c, next);
      if p.core.halted then LoopEnd(p.core, p.next, next, 1)
      else
        var e := Loop(isa, p.core, p.next, next, n - 1);
        e.(count := e.count + 1)
  }

  predicate Pending(c: Core)
  {
    c.reason == SoftwareBreakpoint
  }

  /** The locals of a loop are written back: previous_pc_ and the pc register. */
  function WriteBack(e: LoopEnd): Core
  {
    e.core.(previousPc := e.last, pcReg := e.next)
  }

  datatype Stepped = InvalidArgument | NotHalted | Stepped(core: Core, count: nat)

  /** Step(num). `uninit` is what the local pc happens to hold when the loop makes no turn. */
  function Step(isa: InstructionSet, c: Core, num: int, uninit: Word): Stepped
  {
    if num <= 0 then InvalidArgument
    else if c.status != Halted then NotHalted
    else
      var c0 := c.(status := SingleStep, halted := false);
      var c1 := if Pending(c) then StepOver(isa, c0) else c0;
      var done := if Pending(c) then 1 else 0;
      var e := Loop(isa, c1, c1.pcReg, uninit, num - done);
      var c2 := WriteBack(e);
      Stepped(c2.(reason := if c2.halted then c2.reason else NoReason, status := Halted), done + e.count)
  }

  /** Which error Step returns, and that it returns none otherwise. A bad count is found first. */
  lemma StepErrors(isa: InstructionSet, c: Core, num: int, uninit: Word)
    ensures Step(isa, c, num, uninit) == InvalidArgument <==> num <= 0
    ensures Step(isa, c, num, uninit) == NotHalted <==> num > 0 && c.status != Halted
  {
    hide StepOver, Loop;
  }

  // ---------------------------------------------------------------- Run

  /** Run up to its write of run_status_: step over a pending breakpoint and set the status. */
  function Begin(isa: InstructionSet, c: Core): Core
  {
    (if Pending(c) then StepOver(isa, c) else c).(status := Running)
  }

  /** Run up to the start of the worker. */
  function Launch(isa: InstructionSet, c: Core): Core
  {
    Begin(isa, c).(halted := false)
  }

  /** The worker's turns, at most `turns` of them before a Halt reaches it, and the publication. */
  function Work(isa: InstructionSet, c: Core, turns: nat, uninit: Word): Core
  {
    var e := Loop(isa, c, c.pcReg, uninit, turns);
    var c2 := WriteBack(e);
    (if c2.halted then c2 else c2.(reason := UserRequest, halted := true)).(status := Halted)
  }

  /** Run, the worker's turns and the publication. */
  function RunToHalt(isa: InstructionSet, c: Core, turns: nat, uninit: Word): Core
  {
    Work(isa, Launch(isa, c), turns, uninit)
  }

  // ---------------------------------------------------------------- registers

  datatype RegName = X(r: int) | PcName

  predicate Exists(n: RegName)
  {
    n.X? ==> 0 <= n.r < 32
  }

  function ReadRegister(c: Core, n: RegName): Word
    requires Exists(n)
  {
    if n == PcName then if Pending(c) then c.previousPc else c.pcReg
    else c.x[n.r]
  }

  function WriteRegister(c: Core, n: RegName, v: int): Core
    requires Exists(n)
  {
    if n == PcName then c.(reason := if Pending(c) then NoReason else c.reason, pcReg := Wrap(v))
    else c.(x := c.x[n.r := Wrap(v)])
  }

  // ---------------------------------------------------------------- disassembly

  /** GetDisassembly decodes the original instruction under an active breakpoint. */
  function Disassembled(isa: InstructionSet, c: Core, a: Word): (Core, Inst)
  {
    if a in c.bps && c.bps[a].enabled then
      var c1 := DisableBreakpoint(c, a);
      (EnableBreakpoint(c1.(cache := Filled(isa, c1.cache, c1.mem, a)), a), Cached(isa, c1.cache, c1.mem, a))
    else
      (c.(cache := Filled(isa, c.cache, c.mem, a)), Cached(isa, c.cache, c.mem, a))
  }
}
