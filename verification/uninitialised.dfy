/** previous_pc_, and the locals pc from which it is set, start uninitialised. Two sessions that differ
    only in what those hold look the same to the user, whatever the guest and the user do. */
module Uninitialised {
  import opened Words
  import opened FlatMemory
  import opened Controller
  import opened StepLaws
  import opened Interleaving
  import opened Sessions
  import M = Machine

  predicate CoreTwins(c: Core, c': Core)
  {
    c' == c.(previousPc := c'.previousPc)
  }

  predicate WorkerTwins(w: Worker, w': Worker)
  {
    w' == w.(pc := w'.pc)
  }

  /** Where an instruction is owed, its address is known: by the core at rest, by the worker otherwise. */
  predicate Settled(s: Sys, s': Sys)
    requires |s.workers| == |s'.workers|
  {
    Pending(s.core) ==>
      if s.workers == [] then s.core.previousPc == s'.core.previousPc else s.workers[0].pc == s'.workers[0].pc
  }

  predicate ControlAlike(k: Control, k': Control)
  {
    k' == k || (k.Launching? && k'.Launching?)
  }

  predicate Twins(s: Sys, s': Sys)
  {
    && ThreadSafe(s) && ThreadSafe(s')
    && ControlAlike(s.control, s'.control) && s'.halt == s.halt && s'.runHalted == s.runHalted
    && (s.control.Launching? ==> !Pending(s.core))
    && CoreTwins(s.core, s'.core)
    && |s'.workers| == |s.workers|
    && (s.workers != [] ==> WorkerTwins(s.workers[0], s'.workers[0]))
    && Settled(s, s')
  }

  /** The same event but for the uninitialised local it brings. */
  predicate EventTwins(e: Event, e': Event)
  {
    match e
    case StepCmd(num, _) => e'.StepCmd? && e'.num == num
    case RunCmd(_) => e'.RunCmd?
    case _ => e' == e
  }

  lemma TurnTwins(isa: M.InstructionSet, c: Core, c': Core, next: Word)
    requires CoreTwins(c, c')
    ensures var p, p' := Turn(isa, c, next), Turn(isa, c', next);
      p'.next == p.next && CoreTwins(p.core, p'.core) && p'.core.previousPc == c'.previousPc
  {
    hide Cached, Filled;
  }

  lemma StepGoesThrough(isa: M.InstructionSet, c: Core, num: int, u: Word)
    requires num > 0 && c.status == Halted
    ensures Step(isa, c, num, u).Stepped?
  {
    hide StepOver, Loop;
  }

  lemma StepTwins(isa: M.InstructionSet, c: Core, c': Core, num: int, u: Word, u': Word)
    requires CoreTwins(c, c') && (Pending(c) ==> c == c') && num > 0 && c.status == Halted
    ensures var r, r' := Step(isa, c, num, u), Step(isa, c', num, u');
      r.Stepped? && r'.Stepped? && CoreTwins(r.core, r'.core) && (Pending(r.core) ==> r.core == r'.core)
  {
    StepGoesThrough(isa, c, num, u);
    if Pending(c) {
      hide Step;
      UninitialisedNeverRead(isa, c, num, u, u');
    } else {
      LoopFromTwins(isa, c, c', num, u, u');
    }
  }

  lemma LoopFromTwins(isa: M.InstructionSet, c: Core, c': Core, num: int, u: Word, u': Word)
    requires CoreTwins(c, c') && !Pending(c) && num > 0 && c.status == Halted
    ensures Step(isa, c, num, u) == Step(isa, c', num, u')
  {
    hide Turn, Loop, StepOver;
    var c1, c1' := c.(status := SingleStep, halted := false), c'.(status := SingleStep, halted := false);
    LoopOfTwins(isa, c1, c1', c1.pcReg, u, u', num);
  }

  lemma EditTwins(isa: M.InstructionSet, c: Core, c': Core, a: Addr)
    requires CoreTwins(c, c')
    ensures CoreTwins(SetBreakpoint(c, a), SetBreakpoint(c', a)) && SetBreakpoint(c, a).reason == c.reason
    ensures CoreTwins(ClearBreakpoint(c, a), ClearBreakpoint(c', a)) && ClearBreakpoint(c, a).reason == c.reason
    ensures SetBreakpoint(c, a).previousPc == c.previousPc && ClearBreakpoint(c, a).previousPc == c.previousPc
    ensures SetBreakpoint(c', a).previousPc == c'.previousPc && ClearBreakpoint(c', a).previousPc == c'.previousPc
  {
    hide Store, LoadWord, Invalidate;
  }

  lemma {:induction false} ClearAllTwins(isa: M.InstructionSet, c: Core, c': Core, order: seq<Addr>)
    requires CoreTwins(c, c')
    ensures var d, d' := ClearAll(c, order), ClearAll(c', order);
      CoreTwins(d, d') && d.reason == c.reason && d.previousPc == c.previousPc && d'.previousPc == c'.previousPc
    decreases |order|
  {
    hide ClearBreakpoint, SetBreakpoint;
    if order != [] {
      EditTwins(isa, c, c', order[0]);
      ClearAllTwins(isa, ClearBreakpoint(c, order[0]), ClearBreakpoint(c', order[0]), order[1..]);
    }
  }

  lemma DisassembledTwins(isa: M.InstructionSet, c: Core, c': Core, a: Word)
    requires CoreTwins(c, c')
    ensures var d, d' := Disassembled(isa, c, a).0, Disassembled(isa, c', a).0;
      CoreTwins(d, d') && d.reason == c.reason && d.previousPc == c.previousPc && d'.previousPc == c'.previousPc
  {
    hide Store, LoadWord, Invalidate, Cached, Filled;
  }

  lemma ControllerTwins(isa: M.InstructionSet, s: Sys, s': Sys, e: Event, e': Event)
    requires Twins(s, s') && EventTwins(e, e') && !IsWorkerEvent(e)
    ensures Twins(Next(isa, s, e), Next(isa, s', e'))
  {
    hide Twins, EventTwins, Next;
    match e {
      case SetBp(_) | ClearBp(_) | ClearBps(_) | Disassemble(_) => EditsTwin(isa, s, s', e, e');
      case StepCmd(_, _) | RunCmd(_) => ResumesTwin(isa, s, s', e, e');
      case ReadReg(_) | WriteReg(_, _) => OthersTwin(isa, s, s', e, e');
      case HaltCmd | HaltWritesReason | HaltWritesFlag =>
        SameEvent(e, e');
        HaltsTwin(isa, s, s', e);
      case RunSpawns | WaitCmd | WaitReturns => OthersTwin(isa, s, s', e, e');
    }
  }

  lemma EditsTwin(isa: M.InstructionSet, s: Sys, s': Sys, e: Event, e': Event)
    requires Twins(s, s') && EventTwins(e, e') && (e.SetBp? || e.ClearBp? || e.ClearBps? || e.Disassemble?)
    ensures Twins(Next(isa, s, e), Next(isa, s', e'))
  {
    hide SetBreakpoint, ClearBreakpoint, ClearAll, Disassembled, Step, StepOver, Turn, Traps, ThreadSafe;
    NextThreadSafe(isa, s, e);
    NextThreadSafe(isa, s', e');
    AdmittedAlone(s);
    var c, c' := s.core, s'.core;
    match e {
      case SetBp(a) => EditTwins(isa, c, c', a);
      case ClearBp(a) => EditTwins(isa, c, c', a);
      case ClearBps(order) => ClearAllTwins(isa, c, c', order);
      case Disassemble(a) => DisassembledTwins(isa, c, c', a);
    }
  }

  lemma ResumesTwin(isa: M.InstructionSet, s: Sys, s': Sys, e: Event, e': Event)
    requires Twins(s, s') && EventTwins(e, e') && (e.StepCmd? || e.RunCmd?)
    ensures Twins(Next(isa, s, e), Next(isa, s', e'))
  {
    hide SetBreakpoint, ClearBreakpoint, ClearAll, Disassembled, Step, StepOver, Turn, Traps, ThreadSafe;
    NextThreadSafe(isa, s, e);
    NextThreadSafe(isa, s', e');
    AdmittedAlone(s);
    var c, c' := s.core, s'.core;
    if e.RunCmd? {
      LaunchClears(isa, c);
    } else if e.num > 0 && c.status == Halted {
      if Admitted(s) { StepTwins(isa, c, c', e.num, e.uninit, e'.uninit); }
    } else {
      StepRefused(isa, c, e.num, e.uninit);
      StepRefused(isa, c', e.num, e'.uninit);
    }
  }

  lemma OthersTwin(isa: M.InstructionSet, s: Sys, s': Sys, e: Event, e': Event)
    requires Twins(s, s') && EventTwins(e, e')
    requires e.ReadReg? || e.WriteReg? || e.WaitCmd? || e.WaitReturns? || e.RunSpawns?
    ensures Twins(Next(isa, s, e), Next(isa, s', e'))
  {
    hide SetBreakpoint, ClearBreakpoint, ClearAll, Disassembled, Step, Begin, WorkerNext, ThreadSafe;
    NextThreadSafe(isa, s, e);
    NextThreadSafe(isa, s', e');
    AdmittedAlone(s);
    SameEvent(e, e');
  }

  lemma HaltsTwin(isa: M.InstructionSet, s: Sys, s': Sys, e: Event)
    requires Twins(s, s') && (e.HaltCmd? || e.HaltWritesReason? || e.HaltWritesFlag?)
    ensures Twins(Next(isa, s, e), Next(isa, s', e))
  {
    hide SetBreakpoint, ClearBreakpoint, ClearAll, Disassembled, Step, StepOver, Turn, Traps, ThreadSafe;
    NextThreadSafe(isa, s, e);
    NextThreadSafe(isa, s', e);
  }

  lemma SameEvent(e: Event, e': Event)
    requires EventTwins(e, e') && !e.StepCmd? && !e.RunCmd?
    ensures e' == e
  {
  }

  lemma AdmittedAlone(s: Sys)
    requires ThreadSafe(s)
    ensures s.core.status == Running <==> s.workers != [] || s.control.Launching?
    ensures s.core.status != SingleStep && (s.control.Launching? ==> s.workers == [])
  {
  }

  lemma StepRefused(isa: M.InstructionSet, c: Core, num: int, u: Word)
    requires num <= 0 || c.status != Halted
    ensures !Step(isa, c, num, u).Stepped?
  {
    hide StepOver, Loop;
  }

  lemma LaunchClears(isa: M.InstructionSet, c: Core)
    ensures !Pending(Begin(isa, c))
  {
    hide Executed, Cached, Filled, DisableBreakpoint, EnableBreakpoint;
  }

  lemma WorkerStepTwins(isa: M.InstructionSet, s: Sys, s': Sys, e: Event)
    requires Twins(s, s') && IsWorkerEvent(e)
    ensures Twins(Next(isa, s, e), Next(isa, s', e))
  {
    hide Turn, ThreadSafe;
    NextThreadSafe(isa, s, e);
    NextThreadSafe(isa, s', e);
    AdmittedAlone(s);
    OneWorker(s);
    if e.WorkerExecutes? && At(s, e.k, Executing) { TurnTwins(isa, s.core, s'.core, s.workers[0].next); }
  }

  lemma OneWorker(s: Sys)
    requires ThreadSafe(s)
    ensures |s.workers| <= 1
  {
  }

  /** What the user sees of the two is the same. */
  lemma TwinsLookAlike(s: Sys, s': Sys, n: RegName)
    requires Twins(s, s') && Exists(n)
    ensures ShownPc(s) == ShownPc(s')
    ensures s.workers == [] ==> ReadRegister(s.core, n) == ReadRegister(s'.core, n)
  {
  }

  /** Sessions that differ only in uninitialised locals stay twins. */
  lemma {:induction false} SessionTwins(isa: M.InstructionSet, s: Sys, s': Sys, es: seq<Event>, es': seq<Event>)
    requires Twins(s, s') && |es| == |es'| && forall k :: 0 <= k < |es| ==> EventTwins(es[k], es'[k])
    ensures Twins(After(isa, s, es), After(isa, s', es'))
    decreases |es|
  {
    hide Next, Twins, EventTwins, IsWorkerEvent;
    if es != [] {
      EventKept(es[0], es'[0]);
      if IsWorkerEvent(es[0]) {
        WorkerStepTwins(isa, s, s', es[0]);
      } else {
        ControllerTwins(isa, s, s', es[0], es'[0]);
      }
      SessionTwins(isa, Next(isa, s, es[0]), Next(isa, s', es'[0]), es[1..], es'[1..]);
    }
  }

  lemma EventKept(e: Event, e': Event)
    requires EventTwins(e, e')
    ensures IsWorkerEvent(e) ==> e' == e
  {
  }

  /** Every session from construction and loading on shows the same registers, memory and counters whatever
      previous_pc_ and the locals of Step and Run held before they were set. */
  lemma UninitialisedUnseen(isa: M.InstructionSet, m: Memory, u: Word, u': Word, es: seq<Event>, es': seq<Event>,
                            n: RegName)
    requires |es| == |es'| && (forall k :: 0 <= k < |es| ==> EventTwins(es[k], es'[k])) && Exists(n)
    ensures var s := After(isa, Sys(Initial(u).(mem := m), [], Idle, NoHalt, None), es);
      var s' := After(isa, Sys(Initial(u').(mem := m), [], Idle, NoHalt, None), es');
      && s'.core == s.core.(previousPc := s'.core.previousPc)
      && ShownPc(s') == ShownPc(s)
      && (s.core.status == Halted ==> ReadRegister(s'.core, n) == ReadRegister(s.core, n))
  {
    hide After;
    var s := Sys(Initial(u).(mem := m), [], Idle, NoHalt, None);
    var s' := Sys(Initial(u').(mem := m), [], Idle, NoHalt, None);
    SessionTwins(isa, s, s', es, es');
    TwinsLookAlike(After(isa, s, es), After(isa, s', es'), n);
  }
}
