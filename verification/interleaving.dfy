/** RV32ITop as it runs: the controller that calls its methods, the worker that Run starts, and a
    Halt that comes from outside at any time, also while the controller is inside Run or Wait. Every
    read or write of a field they share is a step of its own, except that lines 220-228 of
    rv32i_top.cc, which start the worker, and lines 246-251, which publish its end, are one step
    each. */
module Interleaving {
  import opened Words
  import opened FlatMemory
  import opened Controller
  import M = Machine

  /** Where a worker is: about to read the pc register, to test halted_, to execute an
      instruction, to set halted_ in RequestHalt, or to publish. */
  datatype Phase = Starting | Testing | Executing | Flagging | Publishing

  /** A worker's locals next_pc and pc. */
  datatype Worker = Worker(phase: Phase, next: Word, pc: Word)

  /** Where the controller is: between calls, in Run after setting run_status_, or blocked in Wait. */
  datatype Control = Idle | Launching(uninit: Word) | Waiting

  /** Where a Halt is: none, past its status check, or about to write halted_ after halt_reason_. */
  datatype HaltCall = NoHalt | HaltAccepted | HaltReasoned

  /** run_halted_ is None when null, else whether it has been notified. */
  datatype Sys = Sys(core: Core, workers: seq<Worker>, control: Control, halt: HaltCall, runHalted: Option<bool>)

  datatype Event =
    | SetBp(a: Addr) | ClearBp(a: Addr) | ClearBps(order: seq<Addr>)
    | StepCmd(num: int, uninit: Word) | RunCmd(uninit: Word) | RunSpawns
    | ReadReg(n: RegName) | WriteReg(n: RegName, v: int) | Disassemble(address: Word)
    | HaltCmd | HaltWritesReason | HaltWritesFlag
    | WaitCmd | WaitReturns
    | WorkerStarts(k: nat) | WorkerTests(k: nat) | WorkerExecutes(k: nat) | WorkerFlags(k: nat)
    | WorkerPublishes(k: nat)

  predicate IsWorkerEvent(e: Event)
  {
    e.WorkerStarts? || e.WorkerTests? || e.WorkerExecutes? || e.WorkerFlags? || e.WorkerPublishes?
  }

  /** The worker that the event is about is at the phase the event leaves. */
  predicate At(s: Sys, k: nat, phase: Phase)
  {
    k < |s.workers| && s.workers[k].phase == phase
  }

  /** An operation that first checks for run_status_ == kHalted gets past its check. */
  predicate Admitted(s: Sys)
  {
    s.control == Idle && s.core.status == Halted
  }

  /** The instruction at the worker's next pc is an ebreak with a breakpoint listed on it. */
  predicate Traps(isa: M.InstructionSet, c: Core, next: Word)
  {
    var i := Cached(isa, c.cache, c.mem, next);
    isa.effect(i, c.x, c.mem).ebreak && i.address in c.bps
  }

  function ControllerNext(isa: M.InstructionSet, s: Sys, e: Event): Sys
    requires !IsWorkerEvent(e)
  {
    match e
    case SetBp(a) => if Admitted(s) then s.(core := SetBreakpoint(s.core, a)) else s
    case ClearBp(a) => if Admitted(s) then s.(core := ClearBreakpoint(s.core, a)) else s
    case ClearBps(order) => if Admitted(s) then s.(core := ClearAll(s.core, order)) else s
    case StepCmd(num, uninit) =>
      if s.control != Idle then s else
      var r := Step(isa, s.core, num, uninit);
      if r.Stepped? then s.(core := r.core) else s
    case RunCmd(uninit) =>
      if s.control != Idle || s.core.status == Running then s
      else s.(core := Begin(isa, s.core), control := Launching(uninit))
    case RunSpawns =>
      if s.control.Launching? then
        s.(core := s.core.(halted := false), workers := s.workers + [Worker(Starting, 0, s.control.uninit)],
           control := Idle, runHalted := Some(false))
      else s
    case ReadReg(_) => s
    case WriteReg(n, v) => if Admitted(s) && Exists(n) then s.(core := WriteRegister(s.core, n, v)) else s
    case Disassemble(a) => if Admitted(s) then s.(core := Disassembled(isa, s.core, a).0) else s
    case HaltCmd => if s.halt == NoHalt && s.core.status == Running then s.(halt := HaltAccepted) else s
    case HaltWritesReason =>
      if s.halt == HaltAccepted then s.(core := s.core.(reason := UserRequest), halt := HaltReasoned) else s
    case HaltWritesFlag =>
      if s.halt == HaltReasoned then s.(core := s.core.(halted := true), halt := NoHalt) else s
    case WaitCmd =>
      if s.control != Idle then s
      else if s.core.status != Running then s.(runHalted := None)
      else s.(control := Waiting)
    case WaitReturns =>
      if s.control == Waiting && s.runHalted == Some(true) then s.(control := Idle, runHalted := None) else s
  }

  function WorkerNext(isa: M.InstructionSet, s: Sys, e: Event): Sys
    requires IsWorkerEvent(e)
  {
    match e
    case WorkerStarts(k) =>
      if At(s, k, Starting) then
        s.(workers := s.workers[k := s.workers[k].(phase := Testing, next := s.core.pcReg)])
      else s
    case WorkerTests(k) =>
      if At(s, k, Testing) then
        s.(workers := s.workers[k := s.workers[k].(phase := if s.core.halted then Publishing else Executing)])
      else s
    case WorkerExecutes(k) =>
      if At(s, k, Executing) then
        var w := s.workers[k];
        var p := Turn(isa, s.core, w.next);
        if Traps(isa, s.core, w.next) then
          s.(core := p.core.(halted := s.core.halted), workers := s.workers[k := Worker(Flagging, p.next, w.next)])
        else
          s.(core := p.core, workers := s.workers[k := Worker(Testing, p.next, w.next)])
      else s
    case WorkerFlags(k) =>
      if At(s, k, Flagging) then
        s.(core := s.core.(halted := true), workers := s.workers[k := s.workers[k].(phase := Testing)])
      else s
    case WorkerPublishes(k) =>
      if At(s, k, Publishing) then
        var w := s.workers[k];
        s.(core := s.core.(previousPc := w.pc, pcReg := w.next, status := Halted),
           workers := s.workers[..k] + s.workers[k + 1..],
           runHalted := if s.runHalted == None then None else Some(true))
      else s
  }

  /** One step of the system; an event that is not enabled changes nothing. */
  function Next(isa: M.InstructionSet, s: Sys, e: Event): Sys
  {
    if IsWorkerEvent(e) then WorkerNext(isa, s, e) else ControllerNext(isa, s, e)
  }

  function After(isa: M.InstructionSet, s: Sys, es: seq<Event>): Sys
    decreases |es|
  {
    if es == [] then s else After(isa, Next(isa, s, es[0]), es[1..])
  }

  // ---------------------------------------------------------------- thread safety

  /** At most one worker; run_status_ is kRunning exactly from Run's write of it to the end of the
      worker; the worker and a blocked Wait find a notification object to use. */
  predicate ThreadSafe(s: Sys)
  {
    && s.core.status != SingleStep
    && (s.control.Launching? ==> s.core.status == Running)
    && |s.workers| == (if s.core.status == Running && !s.control.Launching? then 1 else 0)
    && (s.workers != [] ==> s.runHalted == Some(false))
    && (s.control == Waiting ==> s.runHalted.Some?)
    && (s.control == Waiting && s.core.status == Halted ==> s.runHalted == Some(true))
  }

  lemma ClearAllStatus(c: Core, order: seq<Addr>)
    ensures ClearAll(c, order).status == c.status
    decreases |order|
  {
    if order != [] { ClearAllStatus(ClearBreakpoint(c, order[0]), order[1..]); }
  }

  lemma CommandThreadSafe(isa: M.InstructionSet, s: Sys, e: Event)
    requires ThreadSafe(s) && !IsWorkerEvent(e)
    ensures ThreadSafe(ControllerNext(isa, s, e))
  {
    hide StepOver, Loop, Store, Load, Cached, Filled, Invalidate;
    if e.ClearBps? { ClearAllStatus(s.core, e.order); }
  }

  lemma WorkerThreadSafe(isa: M.InstructionSet, s: Sys, e: Event)
    requires ThreadSafe(s) && IsWorkerEvent(e)
    ensures ThreadSafe(WorkerNext(isa, s, e))
  {
    hide Turn, Traps;
    if e.WorkerExecutes? && At(s, e.k, Executing) { TurnKeepsStatus(isa, s.core, s.workers[e.k].next); }
  }

  lemma NextThreadSafe(isa: M.InstructionSet, s: Sys, e: Event)
    requires ThreadSafe(s)
    ensures ThreadSafe(Next(isa, s, e))
  {
    hide ThreadSafe, WorkerNext, ControllerNext;
    if IsWorkerEvent(e) { WorkerThreadSafe(isa, s, e); } else { CommandThreadSafe(isa, s, e); }
  }

  lemma {:induction false} AlwaysThreadSafe(isa: M.InstructionSet, s: Sys, es: seq<Event>)
    requires ThreadSafe(s)
    ensures ThreadSafe(After(isa, s, es))
    decreases |es|
  {
    hide Next, ThreadSafe;
    if es != [] {
      NextThreadSafe(isa, s, es[0]);
      AlwaysThreadSafe(isa, Next(isa, s, es[0]), es[1..]);
    }
  }

  /** While a worker lives, the controller writes only halt_reason_ and halted_ of the core. */
  lemma RunningLocksOut(isa: M.InstructionSet, s: Sys, e: Event)
    requires ThreadSafe(s) && s.workers != [] && !IsWorkerEvent(e)
    ensures var s' := Next(isa, s, e);
      && s'.workers == s.workers
      && s'.core == s.core.(reason := s'.core.reason, halted := s'.core.halted)
  {
  }
}
