/** RV32ITop as an object over the register buffers. Its methods run the loops of the simulator in
    place; the value View gives of it moves exactly as the functions of the controller say. */
module Top {
  import opened Words
  import opened FlatMemory
  import opened BinFormat
  import opened Isa
  import opened Semantics
  import opened Buffers
  import opened Decoder
  import opened RegisterNames
  import M = Machine
  import C = Controller

  datatype Status = Ok | InvalidArgument | FailedPrecondition | NotFound

  /** A handler of the ebreak chain: the debugger's own, or one that only claims some addresses. */
  datatype EbreakHandler = BreakpointHandler | Claims(at: Addr -> bool)

  /** The register that entry k of the register table denotes. */
  function NameOf(k: nat): C.RegName
  {
    if k == PC then C.PcName else C.X(k)
  }

  class RV32ITop {
    const state: RiscVState
    const decoder: RiscV32Decoder
    var cache: C.Cache
    var bps: C.Breakpoints
    var previousPc: Word
    var runStatus: C.RunStatus
    var haltReason: C.HaltReason
    var handlers: seq<EbreakHandler>
    var halted: bool
    var opcodeCount: C.Counts
    var numInstructions: nat

    /** A halted core with all registers 0. previous_pc_ may hold anything. */
    constructor (illegalSize: Word, uninit: Word)
      ensures Valid() && decoder.illegalSize == illegalSize
      ensures fresh(state) && fresh(decoder) && fresh(decoder.encoding)
      ensures View() == C.Initial(uninit)
    {
      hide RiscVState.Valid, RiscVState.Exclusive, Faithful, ZeroRegs, C.ZeroCounts;
      var s := new RiscVState();
      var d := new RiscV32Decoder(s, illegalSize);
      state, decoder := s, d;
      cache, bps := map[], map[];
      previousPc, runStatus, haltReason, halted := uninit, C.Halted, C.NoReason, false;
      opcodeCount, numInstructions := C.ZeroCounts(), 0;
      handlers := [BreakpointHandler];
      new;
      AddNames(state);
    }

    /** Every xN and its alias get an entry for register N. */
    static method AddNames(state: RiscVState)
      requires state.registers == map[PC_NAME := PC]
      modifies state`registers
      ensures Faithful(state.registers, 32)
    {
      hide Faithful, XName, AbiName;
      FaithfulAtFirst();
      for n := 0 to 32
        invariant Faithful(state.registers, n)
      {
        FaithfulWithNext(state.registers, n);
        state.AddRegister(XName(n), n);
        var _ := state.AddRegisterAlias(XName(n), AbiName(n));
      }
    }

    ghost predicate Valid()
      reads this, state, decoder
    {
      && decoder.state == state && decoder.Valid() && state.Shape()
      && state.outside == multiset{decoder.instDb}
      && Faithful(state.registers, 32)
      && handlers == [BreakpointHandler]
    }

    /** The simulator as the value that the controller's functions are about. */
    ghost function View(): C.Core
      requires Valid()
      reads this, state, decoder
    {
      C.Core(state.X(), state.PcValue(), state.mem, cache, bps, previousPc, haltReason, halted, runStatus,
             opcodeCount, numInstructions)
    }

    /** The buffer that the pc register has now. */
    function PcBuffer(): nat
      requires Valid()
      reads this, state, decoder
    {
      state.reg[PC]
    }

    ghost function Isa(): M.InstructionSet
    {
      M.RV32(decoder.illegalSize)
    }

    // -------------------------------------------------------------- decode cache

    method GetDecodedInstruction(pc: Word) returns (i: Inst)
      requires Valid()
      modifies this`cache, state`value, decoder.encoding
      ensures Valid() && PcBuffer() == old(PcBuffer())
      ensures var c := old(View());
        i == C.Cached(Isa(), c.cache, c.mem, pc) && View() == c.(cache := C.Filled(Isa(), c.cache, c.mem, pc))
    {
      hide RiscVState.Valid, RiscVState.Exclusive, Faithful, Decode, LoadWord;
      var slot := C.Slot(pc);
      if slot in cache && cache[slot].address == pc {
        i := cache[slot];
      } else {
        i := decoder.DecodeInstruction(pc);
        cache := cache[slot := i];
      }
    }

    // -------------------------------------------------------------- one instruction

    predicate HasBreakpoint(address: Addr)
      reads this`bps
    {
      address in bps
    }

    method RequestHalt(reason: C.HaltReason)
      modifies this`haltReason, this`halted
      ensures haltReason == reason && halted
    {
      haltReason := reason;
      halted := true;
    }

    predicate Accepts(h: EbreakHandler, address: Addr)
      reads this`bps
    {
      match h
      case BreakpointHandler => HasBreakpoint(address)
      case Claims(at) => at(address)
    }

    /** One handler's answer; the debugger's own requests a halt if there is a breakpoint. */
    method Handle(h: EbreakHandler, i: Inst) returns (handled: bool)
      modifies this`haltReason, this`halted
      ensures handled == Accepts(h, i.address)
      ensures if handled && h.BreakpointHandler? then haltReason == C.SoftwareBreakpoint && halted
              else haltReason == old(haltReason) && halted == old(halted)
    {
      handled := Accepts(h, i.address);
      if handled && h.BreakpointHandler? { RequestHalt(C.SoftwareBreakpoint); }
    }

    /** The chain of handlers: the first that accepts the ebreak handles it, alone. */
    method EBreak(i: Inst) returns (first: nat)
      modifies this`haltReason, this`halted
      ensures first <= |handlers|
      ensures forall k :: 0 <= k < first && handlers[k].BreakpointHandler? ==> i.address !in bps
      ensures forall k :: 0 <= k < first && handlers[k].Claims? ==> !handlers[k].at(i.address)
      ensures first < |handlers| && handlers[first].BreakpointHandler? ==> i.address in bps
      ensures first < |handlers| && handlers[first].Claims? ==> handlers[first].at(i.address)
      ensures if first < |handlers| && handlers[first].BreakpointHandler?
              then haltReason == C.SoftwareBreakpoint && halted
              else haltReason == old(haltReason) && halted == old(halted)
    {
      first := 0;
      while first < |handlers|
        invariant first <= |handlers| && forall k :: 0 <= k < first ==> !Accepts(handlers[k], i.address)
        invariant haltReason == old(haltReason) && halted == old(halted)
      {
        var handled := Handle(handlers[first], i);
        if handled { return; }
        first := first + 1;
      }
    }

    /** The pc register gets a new buffer exactly when the instruction writes it. */
    method Execute(i: Inst)
      requires Valid()
      modifies this`haltReason, this`halted, state
      ensures Valid() && View() == C.Executed(Isa(), old(View()), i)
      ensures PcBuffer() != old(PcBuffer()) <==> Isa().effect(i, old(View()).x, old(View()).mem).target.Some?
    {
      hide RiscVState.Valid, RiscVState.Exclusive, Faithful, EffectOf, StoreTo, WriteReg;
      var ebreak := state.Execute(i);
      if ebreak {
        assert handlers[0] == BreakpointHandler;
        var _ := EBreak(i);
      }
    }

    method Count(op: Opcode)
      requires Valid()
      modifies this`opcodeCount, this`numInstructions
      ensures Valid() && PcBuffer() == old(PcBuffer()) && View() == C.Tally(old(View()), op)
    {
      hide RiscV32Decoder.Valid, Faithful, OpcodeIndex;
      var k := OpcodeIndex(op);
      opcodeCount := opcodeCount[k := opcodeCount[k] + 1];
      numInstructions := numInstructions + 1;
    }

    method ReadPc(pcDb: nat) returns (v: Word)
      requires Valid() && pcDb == PcBuffer()
      ensures v == View().pcReg
    {
      v := state.value[pcDb];
    }

    /** Fetch at the local next_pc, execute, and see by the identity of the pc register's buffer
        whether the instruction jumped. */
    method Turn(pc: Word, pcDb: nat) returns (nextPc: Word, newDb: nat)
      requires Valid() && pcDb == PcBuffer()
      modifies this`cache, this`haltReason, this`halted, this`opcodeCount, this`numInstructions, state, decoder.encoding
      ensures Valid() && newDb == PcBuffer()
      ensures C.Point(View(), nextPc) == C.Turn(Isa(), old(View()), pc)
    {
      hide Valid, View, PcBuffer, C.Executed, C.Cached, C.Filled, M.RV32;
      var i := GetDecodedInstruction(pc);
      Execute(i);
      nextPc := Wrap(pc + i.size);
      newDb := pcDb;
      var tmpDb := PcBuffer();
      if pcDb != tmpDb {
        newDb := tmpDb;
        nextPc := ReadPc(newDb);
      }
      Count(i.op);
    }

    // -------------------------------------------------------------- breakpoint manager

    /** Write a word of code and drop what the cache has of it. */
    method WriteCode(a: Addr, w: Word)
      requires Valid()
      modifies this`cache, state`mem
      ensures Valid() && View() == C.WriteCode(old(View()), a, w)
    {
      hide Counted, Distinct, Faithful, Store;
      state.mem := Store(state.mem, a, 4, w);
      var slot := C.Slot(a);
      if slot in cache && cache[slot].address == a { cache := cache - {slot}; }
    }

    method DisableBreakpoint(a: Addr) returns (ok: bool)
      requires Valid()
      modifies this`cache, this`bps, state`mem
      ensures Valid() && ok == (a in old(bps)) && View() == C.DisableBreakpoint(old(View()), a)
    {
      hide RiscVState.Valid, RiscVState.Exclusive, Faithful, C.WriteCode;
      ok := a in bps;
      if ok && bps[a].enabled {
        WriteCode(a, bps[a].saved);
        bps := bps[a := bps[a].(enabled := false)];
      }
    }

    method EnableBreakpoint(a: Addr) returns (ok: bool)
      requires Valid()
      modifies this`cache, this`bps, state`mem
      ensures Valid() && ok == (a in old(bps)) && View() == C.EnableBreakpoint(old(View()), a)
    {
      hide RiscVState.Valid, RiscVState.Exclusive, Faithful, C.WriteCode;
      ok := a in bps;
      if ok && !bps[a].enabled {
        WriteCode(a, M.EBREAK);
        bps := bps[a := bps[a].(enabled := true)];
      }
    }

    method SetSwBreakpoint(a: Addr) returns (status: Status)
      requires Valid()
      modifies this`cache, this`bps, state`mem
      ensures Valid() && status == if old(runStatus) == C.Halted then Ok else FailedPrecondition
      ensures View() == if status == Ok then C.SetBreakpoint(old(View()), a) else old(View())
    {
      hide RiscVState.Valid, RiscVState.Exclusive, Faithful, C.WriteCode, LoadWord;
      if runStatus != C.Halted { return FailedPrecondition; }
      if a !in bps {
        var saved := LoadWord(state.mem, a);
        WriteCode(a, M.EBREAK);
        bps := bps[a := C.Breakpoint(saved, true)];
      }
      status := Ok;
    }

    method ClearSwBreakpoint(a: Addr) returns (status: Status)
      requires Valid()
      modifies this`cache, this`bps, state`mem
      ensures Valid()
      ensures status == if old(runStatus) != C.Halted then FailedPrecondition
                        else if a in old(bps) then Ok else NotFound
      ensures View() == if old(runStatus) == C.Halted then C.ClearBreakpoint(old(View()), a) else old(View())
    {
      hide RiscVState.Valid, RiscVState.Exclusive, Faithful, C.WriteCode;
      if runStatus != C.Halted { return FailedPrecondition; }
      var found := DisableBreakpoint(a);
      bps := bps - {a};
      status := if found then Ok else NotFound;
    }

    /** The breakpoints are cleared one after the other, in an order of the manager's choosing. */
    method ClearAllSwBreakpoints() returns (status: Status, ghost order: seq<Addr>)
      requires Valid()
      modifies this`cache, this`bps, state`mem
      ensures Valid() && status == if old(runStatus) == C.Halted then Ok else FailedPrecondition
      ensures status == Ok ==> bps == map[] && (forall a :: a in old(bps) <==> a in order)
      ensures View() == C.ClearAll(old(View()), order)
    {
      hide RiscVState.Valid, RiscVState.Exclusive, Faithful, C.WriteCode, C.DisableBreakpoint, C.ClearBreakpoint;
      order := [];
      if runStatus != C.Halted { return FailedPrecondition, order; }
      while bps.Keys != {}
        invariant Valid() && View() == C.ClearAll(old(View()), order)
        invariant runStatus == C.Halted
        invariant forall a :: a in old(bps) <==> a in bps || a in order
        decreases |bps|
      {
        C.SomeKey(bps.Keys);
        var a :| a in bps.Keys;
        C.ClearedBreakpoints(View(), a);
        var _ := ClearSwBreakpoint(a);
        C.ClearAllAppend(old(View()), order, a);
        order := order + [a];
      }
      assert bps == map[];
      status := Ok;
    }

    // -------------------------------------------------------------- Step and Run

    /** Execute the instruction owed at the breakpoint where the core stopped. */
    method StepOver()
      requires Valid()
      modifies this`cache, this`bps, this`haltReason, this`halted, this`opcodeCount, this`numInstructions,
               state, decoder.encoding
      ensures Valid() && View() == C.StepOver(Isa(), old(View()))
    {
      hide Valid, PcBuffer, View, Isa, C.Executed, C.Cached, C.Filled, C.DisableBreakpoint, C.EnableBreakpoint;
      Fields();
      var bpPc := previousPc;
      C.DisableKeepsKeys(View(), bpPc);
      var ok := DisableBreakpoint(bpPc);
      var i := GetDecodedInstruction(bpPc);
      C.ExecutedKeepsBps(Isa(), View(), i);
      Execute(i);
      Count(i.op);
      Fields();
      if ok { ok := EnableBreakpoint(bpPc); } else { C.EnableMissing(View(), bpPc); }
      ForgetReason();
    }

    lemma Fields()
      requires Valid()
      ensures View().bps == bps && View().previousPc == previousPc
    {
    }

    method ForgetReason()
      requires Valid()
      modifies this`haltReason
      ensures Valid() && View() == old(View()).(reason := C.NoReason)
    {
      hide RiscVState.Valid, RiscVState.Exclusive, Faithful;
      haltReason := C.NoReason;
    }

    /** The loop of Step, from the pc register's value and `done` instructions already counted. */
    method StepLoop(num: int, done: nat, uninit: Word) returns (nextPc: Word, pc: Word, pcDb: nat, count: nat)
      requires Valid() && done <= num
      modifies this`cache, this`haltReason, this`halted, this`opcodeCount, this`numInstructions, state, decoder.encoding
      ensures Valid() && pcDb == PcBuffer() && count >= done
      ensures C.LoopEnd(View(), nextPc, pc, count - done)
              == C.Loop(Isa(), old(View()), old(View()).pcReg, uninit, num - done)
    {
      hide Valid, View, PcBuffer, C.Turn, M.RV32;
      pcDb := PcBuffer();
      nextPc := ReadPc(pcDb);
      pc := uninit;
      count := done;
      ghost var e := C.Loop(Isa(), View(), nextPc, pc, num - done);
      while count < num
        invariant Valid() && pcDb == PcBuffer() && done <= count <= num
        invariant var rest := C.Loop(Isa(), View(), nextPc, pc, num - count);
          e == rest.(count := rest.count + count - done)
      {
        pc := nextPc;
        nextPc, pcDb := Turn(pc, pcDb);
        count := count + 1;
        ControlShown();
        if halted { break; }
      }
    }

    lemma ControlShown()
      requires Valid()
      ensures View().halted == halted && View().status == runStatus && View().reason == haltReason
      ensures View().bps == bps
    {
    }

    /** The locals of a loop written back, the next pc into the buffer that pc has. */
    method WriteBack(pc: Word, nextPc: Word)
      requires Valid()
      modifies this`previousPc, state`value
      ensures Valid() && View() == old(View()).(previousPc := pc, pcReg := nextPc)
    {
      hide RiscVState.Valid, RiscVState.Exclusive, Faithful;
      previousPc := pc;
      state.Overwrite(PC, nextPc);
    }

    method StartStep()
      requires Valid()
      modifies this`runStatus, this`halted
      ensures Valid() && View() == old(View()).(status := C.SingleStep, halted := false)
      ensures View().reason == haltReason
    {
      hide RiscV32Decoder.Valid, Faithful;
      runStatus := C.SingleStep;
      halted := false;
    }

    /** Without a halt request there is no halt reason. */
    method FinishStep()
      requires Valid()
      modifies this`runStatus, this`haltReason
      ensures Valid()
      ensures var c := old(View());
        View() == c.(reason := if c.halted then c.reason else C.NoReason, status := C.Halted)
    {
      hide RiscV32Decoder.Valid, Faithful;
      if !halted { haltReason := C.NoReason; }
      runStatus := C.Halted;
    }

    /** Step(num). The local pc starts with whatever `uninit` is. */
    method Step(num: int, uninit: Word) returns (status: Status, count: nat)
      requires Valid()
      modifies this`cache, this`bps, this`previousPc, this`runStatus, this`haltReason, this`halted,
               this`opcodeCount, this`numInstructions, state, decoder.encoding
      ensures Valid()
      ensures status == (if num <= 0 then InvalidArgument
                         else if old(runStatus) != C.Halted then FailedPrecondition else Ok)
      ensures match C.Step(Isa(), old(View()), num, uninit)
              case InvalidArgument => status == InvalidArgument && View() == old(View())
              case NotHalted => status == FailedPrecondition && View() == old(View())
              case Stepped(core, k) => status == Ok && count == k && View() == core
    {
      hide Valid, View, PcBuffer, C.StepOver, C.Loop, M.RV32;
      ControlShown();
      if num <= 0 { return InvalidArgument, 0; }
      if runStatus != C.Halted { return FailedPrecondition, 0; }
      StartStep();
      count := 0;
      if haltReason == C.SoftwareBreakpoint {
        StepOver();
        count := 1;
      }
      var nextPc, pc, pcDb;
      nextPc, pc, pcDb, count := StepLoop(num, count, uninit);
      WriteBack(pc, nextPc);
      FinishStep();
      status := Ok;
    }

    /** Run up to the start of the worker. */
    method Run() returns (status: Status)
      requires Valid()
      modifies this`cache, this`bps, this`runStatus, this`haltReason, this`halted,
               this`opcodeCount, this`numInstructions, state, decoder.encoding
      ensures Valid() && status == if old(runStatus) == C.Running then FailedPrecondition else Ok
      ensures View() == if status == Ok then C.Launch(Isa(), old(View())) else old(View())
    {
      hide RiscV32Decoder.Valid, Faithful, C.StepOver, M.RV32;
      if runStatus == C.Running { return FailedPrecondition; }
      if haltReason == C.SoftwareBreakpoint { StepOver(); }
      runStatus := C.Running;
      halted := false;
      status := Ok;
    }

    method Halt() returns (status: Status)
      requires Valid()
      modifies this`haltReason, this`halted
      ensures Valid() && PcBuffer() == old(PcBuffer())
      ensures status == if old(View()).status == C.SingleStep then FailedPrecondition else Ok
      ensures View() == if old(View()).status == C.Running then old(View()).(reason := C.UserRequest, halted := true)
                        else old(View())
    {
      hide RiscV32Decoder.Valid, Faithful;
      if runStatus == C.Halted { return Ok; }
      if runStatus != C.Running { return FailedPrecondition; }
      haltReason := C.UserRequest;
      halted := true;
      status := Ok;
    }

    /** The worker's loop. The Halt that ends it, unless a breakpoint does so first, comes after
        `turns` turns. */
    method WorkerLoop(turns: nat, uninit: Word) returns (nextPc: Word, pc: Word)
      requires Valid() && View().status == C.Running && !View().halted
      modifies this`cache, this`haltReason, this`halted, this`opcodeCount, this`numInstructions, state, decoder.encoding
      ensures Valid()
      ensures var e := C.Loop(Isa(), old(View()), old(View()).pcReg, uninit, turns);
        && nextPc == e.next && pc == e.last
        && View() == if e.core.halted then e.core else e.core.(reason := C.UserRequest, halted := true)
    {
      hide Valid, View, PcBuffer, C.Turn, M.RV32;
      var pcDb := PcBuffer();
      nextPc := ReadPc(pcDb);
      pc := uninit;
      var left := turns;
      ghost var e := C.Loop(Isa(), View(), nextPc, pc, turns);
      if left == 0 { var _ := Halt(); }
      ControlShown();
      while !halted
        invariant Valid() && pcDb == PcBuffer() && halted == View().halted
        invariant !halted ==> View().status == C.Running
        invariant !halted ==>
          var rest := C.Loop(Isa(), View(), nextPc, pc, left);
          left > 0 && (e.core, e.next, e.last) == (rest.core, rest.next, rest.last)
        invariant halted ==>
          && nextPc == e.next && pc == e.last
          && View() == if e.core.halted then e.core else e.core.(reason := C.UserRequest, halted := true)
        decreases left
      {
        pc := nextPc;
        C.TurnKeepsStatus(Isa(), View(), pc);
        nextPc, pcDb := Turn(pc, pcDb);
        left := left - 1;
        ControlShown();
        if left == 0 && !halted {
          var _ := Halt();
          ControlShown();
        }
      }
    }

    /** The worker that Run starts, up to and including the publication of its end. */
    method Worker(turns: nat, uninit: Word)
      requires Valid() && View().status == C.Running && !View().halted
      modifies this`cache, this`previousPc, this`runStatus, this`haltReason, this`halted,
               this`opcodeCount, this`numInstructions, state, decoder.encoding
      ensures Valid() && View() == C.Work(Isa(), old(View()), turns, uninit)
    {
      hide RiscV32Decoder.Valid, Faithful, C.Loop, M.RV32;
      var nextPc, pc := WorkerLoop(turns, uninit);
      WriteBack(pc, nextPc);
      runStatus := C.Halted;
    }

    // -------------------------------------------------------------- registers

    /** A name is found exactly if the calling convention has it, and denotes the register that the
        convention gives it. */
    method ReadRegister(name: string) returns (status: Status, value: Word)
      requires Valid()
      ensures status == (if runStatus != C.Halted then FailedPrecondition
                         else if NumberOf(name).None? then NotFound else Ok)
      ensures status == Ok ==> C.Exists(NameOf(NumberOf(name).value))
                               && value == C.ReadRegister(View(), NameOf(NumberOf(name).value))
    {
      hide NumberOf, RiscV32Decoder.Valid, XName, AbiName;
      TableComplete(state.registers, name);
      value := 0;
      if runStatus != C.Halted { return FailedPrecondition, 0; }
      if name !in state.registers { return NotFound, 0; }
      NumberBound(name);
      OnlyPc(name);
      status := Ok;
      if name == PC_NAME && haltReason == C.SoftwareBreakpoint {
        value := previousPc;
      } else {
        value := state.value[state.reg[state.registers[name]]];
      }
    }

    method WriteRegister(name: string, v: int) returns (status: Status)
      requires Valid()
      modifies this`haltReason, state`value
      ensures Valid()
      ensures status == (if runStatus != C.Halted then FailedPrecondition
                         else if NumberOf(name).None? then NotFound else Ok)
      ensures status == Ok ==> C.Exists(NameOf(NumberOf(name).value))
                               && View() == C.WriteRegister(old(View()), NameOf(NumberOf(name).value), v)
      ensures status != Ok ==> View() == old(View())
    {
      hide NumberOf, RiscVState.Valid, RiscVState.Exclusive, XName, AbiName;
      TableComplete(state.registers, name);
      if runStatus != C.Halted { return FailedPrecondition; }
      if name !in state.registers { return NotFound; }
      NumberBound(name);
      OnlyPc(name);
      if name == PC_NAME && haltReason == C.SoftwareBreakpoint { haltReason := C.NoReason; }
      state.Overwrite(state.registers[name], Wrap(v));
      status := Ok;
    }

    // -------------------------------------------------------------- disassembly

    method GetDisassembly(address: Word) returns (status: Status, i: Inst)
      requires Valid()
      modifies this`cache, this`bps, state`value, state`mem, decoder.encoding
      ensures Valid() && status == if runStatus == C.Halted then Ok else FailedPrecondition
      ensures status == Ok ==> (View(), i) == C.Disassembled(Isa(), old(View()), address)
      ensures status != Ok ==> View() == old(View())
    {
      hide RiscV32Decoder.Valid, Faithful, C.Cached, C.Filled, C.DisableBreakpoint, C.EnableBreakpoint, M.RV32;
      if runStatus != C.Halted { return FailedPrecondition, Inst(Illegal, 0, 4, [], []); }
      if address in bps && bps[address].enabled {
        var ok := DisableBreakpoint(address);
        i := GetDecodedInstruction(address);
        ok := EnableBreakpoint(address);
      } else {
        i := GetDecodedInstruction(address);
      }
      status := Ok;
    }
  }
}
