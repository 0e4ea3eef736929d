/** Whole debugger sessions: every interleaving of the controller and the worker moves along the
    trajectory of the reference debugger. */
module Sessions {
  import opened Words
  import opened BinFormat
  import opened Controller
  import opened Patching
  import opened Transparency
  import opened Interleaving
  import M = Machine
  import Ref = Reference
  import S = Scripts

  /** The pc a user would read if the worker published now. */
  function WorkerPc(c: Core, w: Worker): Word
  {
    if w.phase == Starting then c.pcReg
    else if Pending(c) then w.pc
    else w.next
  }

  function ShownPc(s: Sys): Word
  {
    if s.workers == [] then VisiblePc(s.core) else WorkerPc(s.core, s.workers[0])
  }

  /** A worker that has trapped has passed the breakpoint by four bytes and will execute nothing more. */
  predicate WorkerOwes(c: Core, w: Worker)
  {
    Pending(c) ==>
      && w.phase != Starting && w.phase != Executing
      && (w.phase == Testing ==> c.halted)
      && w.next == Wrap(w.pc + 4)
  }

  ghost predicate Follows(isa: M.InstructionSet, s: Sys, d: Ref.Debuggee)
  {
    && ThreadSafe(s)
    && Inv(isa, s.core) && Shows(s.core, ShownPc(s), d.arch) && Pending(s.core) == d.stopped
    && (s.control.Launching? ==> !Pending(s.core))
    && (if s.workers == [] then Owes(s.core) else WorkerOwes(s.core, s.workers[0]))
  }

  /** The event's effect in the reference debugger. */
  function RefNext(isa: M.InstructionSet, s: Sys, e: Event, d: Ref.Debuggee): Ref.Debuggee
  {
    match e
    case StepCmd(num, _) => if Admitted(s) && num > 0 then Ref.StepN(isa, d, s.core.bps.Keys, num) else d
    case RunCmd(_) => if Admitted(s) then Ref.Resume(isa, d) else d
    case WriteReg(n, v) => if Admitted(s) && Exists(n) then WrittenTo(d, n, v) else d
    case WorkerExecutes(k) => if At(s, k, Executing) then Ref.Turn(isa, d, s.core.bps.Keys) else d
    case _ => d
  }

  /** What is asked of the guest and of the user for one event. */
  ghost predicate Allowed(isa: M.InstructionSet, s: Sys, e: Event, d: Ref.Debuggee)
  {
    var bps, cached := s.core.bps, CodeOf(s.core.cache);
    match e
    case SetBp(a) => Admitted(s) && a !in bps ==> ClearOf(bps, a, 4) && BesideCode(cached, a)
    case StepCmd(num, _) =>
      Admitted(s) && num > 0 ==> SafeFrom(isa, d, bps, cached, if d.stopped then num - 1 else num)
    case RunCmd(_) => Admitted(s) && d.stopped ==> Leavable(isa, d.arch, bps, cached)
    case Disassemble(a) => Admitted(s) ==> HeadOn(bps, a)
    case WorkerExecutes(k) => At(s, k, Executing) && d.arch.pc !in bps ==> Regular(isa, d.arch, bps, cached)
    case HaltWritesReason => s.halt == HaltAccepted ==> !Pending(s.core)
    case _ => true
  }

  lemma HaltedTracks(isa: M.InstructionSet, s: Sys, d: Ref.Debuggee)
    requires ThreadSafe(s) && s.core.status == Halted
    ensures Follows(isa, s, d) == Tracks(isa, s.core, d)
  {
  }

  lemma FollowsSafe(isa: M.InstructionSet, s: Sys, d: Ref.Debuggee)
    requires Follows(isa, s, d)
    ensures ThreadSafe(s)
  {
  }

  lemma StepFollows(isa: M.InstructionSet, s: Sys, e: Event, d: Ref.Debuggee)
    requires M.Framed(isa) && Follows(isa, s, d) && Allowed(isa, s, e, d)
    requires e.StepCmd? && Admitted(s) && e.num > 0
    ensures Follows(isa, Next(isa, s, e), RefNext(isa, s, e, d))
    ensures CountsAlike(s.core, d, Next(isa, s, e).core, RefNext(isa, s, e, d))
  {
    hide Step, SafeFrom, Follows, Tracks, CountsAlike, Ref.StepN;
    FollowsSafe(isa, s, d);
    HaltedTracks(isa, s, d);
    StepSimulates(isa, s.core, d, e.num, e.uninit);
    NextThreadSafe(isa, s, e);
    HaltedTracks(isa, Next(isa, s, e), RefNext(isa, s, e, d));
  }

  lemma EditFollows(isa: M.InstructionSet, s: Sys, e: Event, d: Ref.Debuggee)
    requires M.Framed(isa) && Follows(isa, s, d) && Allowed(isa, s, e, d) && Admitted(s)
    requires e.SetBp? || e.ClearBp? || e.ClearBps? || e.Disassemble? || (e.WriteReg? && Exists(e.n))
    ensures Follows(isa, Next(isa, s, e), RefNext(isa, s, e, d))
    ensures CountsAlike(s.core, d, Next(isa, s, e).core, RefNext(isa, s, e, d))
  {
    hide Follows, Tracks, SetBreakpoint, ClearBreakpoint, Disassembled;
    FollowsSafe(isa, s, d);
    HaltedTracks(isa, s, d);
    var c := s.core;
    match e {
      case SetBp(a) => SetBreakpointSimulates(isa, c, d, a);
      case ClearBp(a) => ClearBreakpointSimulates(isa, c, d, a);
      case ClearBps(order) => ClearAllSimulates(isa, c, d, order);
      case Disassemble(a) => DisassembleSimulates(isa, c, d, a);
      case WriteReg(n, v) => WriteRegisterSimulates(isa, c, d, n, v);
    }
    NextThreadSafe(isa, s, e);
    HaltedTracks(isa, Next(isa, s, e), RefNext(isa, s, e, d));
  }

  lemma RunFollows(isa: M.InstructionSet, s: Sys, e: Event, d: Ref.Debuggee)
    requires M.Framed(isa) && Follows(isa, s, d) && Allowed(isa, s, e, d)
    requires e.RunCmd? && Admitted(s)
    ensures Follows(isa, Next(isa, s, e), RefNext(isa, s, e, d))
    ensures CountsAlike(s.core, d, Next(isa, s, e).core, RefNext(isa, s, e, d))
  {
    hide Inv, Restores, Leavable, StepOver, M.Step, M.Fetch, CodeOf, LeftCached;
    HaltedTracks(isa, s, d);
    ResumeSimulates(isa, s.core, d);
    InvIgnoresControl(isa, if Pending(s.core) then StepOver(isa, s.core) else s.core, Begin(isa, s.core));
    NextThreadSafe(isa, s, e);
    assert s.workers == [];
  }

  lemma SpawnFollows(isa: M.InstructionSet, s: Sys, d: Ref.Debuggee)
    requires M.Framed(isa) && Follows(isa, s, d)
    ensures Follows(isa, Next(isa, s, RunSpawns), d)
    ensures SameCounts(s.core, Next(isa, s, RunSpawns).core)
  {
    hide Inv, Restores;
    InvIgnoresControl(isa, s.core, Next(isa, s, RunSpawns).core);
    NextThreadSafe(isa, s, RunSpawns);
  }

  /** The worker's view of a trap is the reference debugger's. */
  lemma TrapsAtBreakpoints(isa: M.InstructionSet, c: Core, r: M.Arch)
    requires M.Framed(isa) && Inv(isa, c) && Shows(c, r.pc, r)
    requires r.pc !in c.bps ==> Regular(isa, r, c.bps, CodeOf(c.cache))
    ensures Traps(isa, c, r.pc) == (r.pc in c.bps)
  {
    hide Inv, Regular, Cached;
    if r.pc in c.bps {
      TrapFetched(isa, c, r.pc);
    } else {
      RegularHeadOn(isa, r, c.bps, CodeOf(c.cache));
      LookupKeepsInv(isa, c, r.pc);
      assert M.Fetch(isa, c.mem, r.pc).address == r.pc;
    }
  }

  lemma ExecuteFollows(isa: M.InstructionSet, s: Sys, e: Event, d: Ref.Debuggee)
    requires M.Framed(isa) && Follows(isa, s, d) && Allowed(isa, s, e, d)
    requires e.WorkerExecutes? && At(s, e.k, Executing)
    ensures Follows(isa, Next(isa, s, e), RefNext(isa, s, e, d))
    ensures CountsAlike(s.core, d, Next(isa, s, e).core, RefNext(isa, s, e, d))
  {
    hide Inv, Restores, Regular, Turn, M.Step, M.Fetch, Traps, M.Framed, CodeOf, Fill;
    var c, w := s.core, s.workers[0];
    TrapsAtBreakpoints(isa, c, d.arch);
    TurnSimulates(isa, c, d.arch);
    TurnFrame(isa, c, w.next);
    InvIgnoresControl(isa, Turn(isa, c, w.next).core, Next(isa, s, e).core);
    NextThreadSafe(isa, s, e);
  }

  lemma WorkerFollows(isa: M.InstructionSet, s: Sys, e: Event, d: Ref.Debuggee)
    requires M.Framed(isa) && Follows(isa, s, d)
    requires e.WorkerStarts? || e.WorkerTests? || e.WorkerFlags?
    ensures Follows(isa, Next(isa, s, e), d) && SameCounts(s.core, Next(isa, s, e).core)
  {
    hide Inv, Restores, M.Fetch, M.Framed, Turn, Traps, ControllerNext;
    InvIgnoresControl(isa, s.core, Next(isa, s, e).core);
    NextThreadSafe(isa, s, e);
  }

  lemma PublishFollows(isa: M.InstructionSet, s: Sys, e: Event, d: Ref.Debuggee)
    requires M.Framed(isa) && Follows(isa, s, d) && e.WorkerPublishes?
    ensures Follows(isa, Next(isa, s, e), d) && SameCounts(s.core, Next(isa, s, e).core)
  {
    hide Inv, Restores, M.Fetch, M.Framed, Turn, Traps, ControllerNext;
    if At(s, e.k, Publishing) {
      var c, w := s.core, s.workers[0];
      var c' := c.(previousPc := w.pc, pcReg := w.next, status := Halted);
      assert s.workers == [w];
      assert Next(isa, s, e).workers == [] && Next(isa, s, e).core == c';
      InvIgnoresControl(isa, c, c');
      NextThreadSafe(isa, s, e);
    }
  }

  /** A step of a Halt touches only its own progress and the reason or the flag. */
  lemma HaltFrame(isa: M.InstructionSet, s: Sys, e: Event)
    requires e.HaltCmd? || e.HaltWritesReason? || e.HaltWritesFlag?
    ensures var s' := Next(isa, s, e);
      && s' == s.(core := s.core.(reason := s'.core.reason, halted := s'.core.halted), halt := s'.halt)
      && (s'.core.reason == s.core.reason
          || (e.HaltWritesReason? && s.halt == HaltAccepted && s'.core.reason == UserRequest))
      && (s.core.halted ==> s'.core.halted)
  {
    hide SetBreakpoint, ClearBreakpoint, ClearAll, Step, Begin, Disassembled, WorkerNext;
  }

  lemma HaltFollows(isa: M.InstructionSet, s: Sys, e: Event, d: Ref.Debuggee)
    requires M.Framed(isa) && Follows(isa, s, d) && Allowed(isa, s, e, d)
    requires e.HaltCmd? || e.HaltWritesReason? || e.HaltWritesFlag?
    ensures Follows(isa, Next(isa, s, e), d) && SameCounts(s.core, Next(isa, s, e).core)
  {
    hide Inv, Restores, M.Framed, CodeOf, Next;
    HaltFrame(isa, s, e);
    InvIgnoresControl(isa, s.core, Next(isa, s, e).core);
    NextThreadSafe(isa, s, e);
  }

  lemma WaitFollows(isa: M.InstructionSet, s: Sys, e: Event, d: Ref.Debuggee)
    requires M.Framed(isa) && Follows(isa, s, d)
    requires e.WaitCmd? || e.WaitReturns? || e.ReadReg?
    ensures Follows(isa, Next(isa, s, e), d) && SameCounts(s.core, Next(isa, s, e).core)
  {
    hide Inv, Restores, M.Framed, SetBreakpoint, ClearBreakpoint, ClearAll, Step, Begin, Disassembled;
    hide Turn, Traps, CodeOf, WorkerNext;
    NextThreadSafe(isa, s, e);
  }

  lemma RefusedFollows(isa: M.InstructionSet, s: Sys, e: Event, d: Ref.Debuggee)
    requires ThreadSafe(s)
    requires match e
             case SetBp(_) | ClearBp(_) | ClearBps(_) | Disassemble(_) | RunCmd(_) => !Admitted(s)
             case StepCmd(num, _) => !Admitted(s) || num <= 0
             case WriteReg(n, _) => !Admitted(s) || !Exists(n)
             case WorkerExecutes(k) => !At(s, k, Executing)
             case _ => false
    ensures Next(isa, s, e) == s && RefNext(isa, s, e, d) == d
  {
  }

  /** Every step of the two threads is a step of the reference debugger, or none. */
  lemma NextFollows(isa: M.InstructionSet, s: Sys, e: Event, d: Ref.Debuggee)
    requires M.Framed(isa) && Follows(isa, s, d) && Allowed(isa, s, e, d)
    ensures Follows(isa, Next(isa, s, e), RefNext(isa, s, e, d))
    ensures CountsAlike(s.core, d, Next(isa, s, e).core, RefNext(isa, s, e, d))
  {
    hide Follows, Next, Allowed;
    assert ThreadSafe(s) by { FollowsSafe(isa, s, d); }
    match e
    case SetBp(_) | ClearBp(_) | ClearBps(_) | Disassemble(_) =>
      if Admitted(s) { EditFollows(isa, s, e, d); } else { RefusedFollows(isa, s, e, d); }
    case WriteReg(n, _) =>
      if Admitted(s) && Exists(n) { EditFollows(isa, s, e, d); } else { RefusedFollows(isa, s, e, d); }
    case StepCmd(num, _) =>
      if Admitted(s) && num > 0 { StepFollows(isa, s, e, d); } else { RefusedFollows(isa, s, e, d); }
    case RunCmd(_) =>
      if Admitted(s) { RunFollows(isa, s, e, d); } else { RefusedFollows(isa, s, e, d); }
    case WorkerExecutes(k) =>
      if At(s, k, Executing) { ExecuteFollows(isa, s, e, d); } else { RefusedFollows(isa, s, e, d); }
    case RunSpawns => SpawnFollows(isa, s, d);
    case WorkerStarts(_) | WorkerTests(_) | WorkerFlags(_) => WorkerFollows(isa, s, e, d);
    case WorkerPublishes(_) => PublishFollows(isa, s, e, d);
    case HaltCmd | HaltWritesReason | HaltWritesFlag => HaltFollows(isa, s, e, d);
    case WaitCmd | WaitReturns | ReadReg(_) => WaitFollows(isa, s, e, d);
  }

  // ---------------------------------------------------------------- whole sessions

  function RefAfter(isa: M.InstructionSet, s: Sys, es: seq<Event>, d: Ref.Debuggee): Ref.Debuggee
    decreases |es|
  {
    if es == [] then d else RefAfter(isa, Next(isa, s, es[0]), es[1..], RefNext(isa, s, es[0], d))
  }

  ghost predicate AllAllowed(isa: M.InstructionSet, s: Sys, es: seq<Event>, d: Ref.Debuggee)
    decreases |es|
  {
    es != [] ==> Allowed(isa, s, es[0], d)
                 && AllAllowed(isa, Next(isa, s, es[0]), es[1..], RefNext(isa, s, es[0], d))
  }

  /** Breakpoint transparency over whole sessions, under every interleaving of the two threads. */
  lemma {:induction false} SessionFollows(isa: M.InstructionSet, s: Sys, es: seq<Event>, d: Ref.Debuggee)
    requires M.Framed(isa) && Follows(isa, s, d) && AllAllowed(isa, s, es, d)
    ensures var s', d' := After(isa, s, es), RefAfter(isa, s, es, d);
      Follows(isa, s', d') && CountsAlike(s.core, d, s'.core, d')
    decreases |es|
  {
    hide Follows, Next, RefNext, Allowed;
    if es != [] {
      NextFollows(isa, s, es[0], d);
      SessionFollows(isa, Next(isa, s, es[0]), es[1..], RefNext(isa, s, es[0], d));
    }
  }

  /** What a user can read once the session is back at rest. */
  lemma SessionReads(isa: M.InstructionSet, s: Sys, es: seq<Event>, d: Ref.Debuggee, n: RegName)
    requires M.Framed(isa) && Follows(isa, s, d) && AllAllowed(isa, s, es, d) && Exists(n)
    requires After(isa, s, es).core.status == Halted
    ensures var c, r := After(isa, s, es).core, RefAfter(isa, s, es, d).arch;
      && ReadRegister(c, n) == (if n == PcName then r.pc else r.x[n.r])
      && Restores(c.mem, c.bps, r.mem)
  {
    hide Follows, AllAllowed, Next, RefNext, ReadRegister, After, RefAfter;
    SessionFollows(isa, s, es, d);
    var s', d' := After(isa, s, es), RefAfter(isa, s, es, d);
    FollowsSafe(isa, s', d');
    HaltedTracks(isa, s', d');
    ReadRegisterSimulates(isa, s'.core, d', n);
  }

  lemma EventOnTrajectory(isa: M.InstructionSet, s: Sys, e: Event, d: Ref.Debuggee)
    requires !e.WriteReg?
    ensures Ref.OnTrajectory(isa, d, RefNext(isa, s, e, d))
  {
    hide M.Step, Ref.Turn, Ref.StepN, Ref.Resume;
    match e
    case StepCmd(num, _) => if Admitted(s) && num > 0 { Ref.StepOnTrajectory(isa, d, s.core.bps.Keys, num); }
    case RunCmd(_) | WorkerExecutes(_) => Ref.TurnOnTrajectory(isa, d, s.core.bps.Keys);
    case SetBp(_) | ClearBp(_) | ClearBps(_) | ReadReg(_) | Disassemble(_) =>
    case HaltCmd | HaltWritesReason | HaltWritesFlag | WaitCmd | WaitReturns | RunSpawns =>
    case WorkerStarts(_) | WorkerTests(_) | WorkerFlags(_) | WorkerPublishes(_) =>
  }

  /** What one event makes the program do. */
  function MoveOf(isa: M.InstructionSet, s: Sys, e: Event, d: Ref.Debuggee): S.Move
  {
    if e.WriteReg? && Admitted(s) && Exists(e.n) then S.Put(e.n, e.v)
    else
      var done := RefNext(isa, s, e, d).retired - d.retired;
      S.Go(if done >= 0 then done else 0)
  }

  function Script(isa: M.InstructionSet, s: Sys, es: seq<Event>, d: Ref.Debuggee): seq<S.Move>
    decreases |es|
  {
    if es == [] then []
    else [MoveOf(isa, s, es[0], d)] + Script(isa, Next(isa, s, es[0]), es[1..], RefNext(isa, s, es[0], d))
  }

  lemma EventReplays(isa: M.InstructionSet, s: Sys, e: Event, d: Ref.Debuggee)
    ensures S.Leads(isa, d, [MoveOf(isa, s, e, d)], RefNext(isa, s, e, d))
  {
    hide S.Leads, Ref.OnTrajectory, Ref.Turn, Ref.StepN, Ref.Resume;
    var d' := RefNext(isa, s, e, d);
    if e.WriteReg? && Admitted(s) && Exists(e.n) {
      S.PutLeads(isa, d, e.n, e.v, d');
    } else {
      Ref.StaysOnTrajectory(isa, d);
      if !e.WriteReg? { EventOnTrajectory(isa, s, e, d); }
      S.GoLeads(isa, d, d');
    }
  }

  /** A session, register writes and all, takes the plain machine through its script. */
  lemma {:induction false} SessionReplays(isa: M.InstructionSet, s: Sys, es: seq<Event>, d: Ref.Debuggee)
    ensures S.Leads(isa, d, Script(isa, s, es, d), RefAfter(isa, s, es, d))
    decreases |es|
  {
    hide Next, RefNext, MoveOf, S.Leads;
    if es == [] {
      S.LeadsNowhere(isa, d);
    } else {
      var s1, d1 := Next(isa, s, es[0]), RefNext(isa, s, es[0], d);
      EventReplays(isa, s, es[0], d);
      SessionReplays(isa, s1, es[1..], d1);
      S.LeadsOn(isa, d, [MoveOf(isa, s, es[0], d)], d1, Script(isa, s1, es[1..], d1), RefAfter(isa, s, es, d));
    }
  }

  /** After any session each opcode's counter has gone up by the instructions of that opcode in the
      script, and the ebreak counter by the stops besides. */
  lemma SessionCounters(isa: M.InstructionSet, s: Sys, es: seq<Event>, d: Ref.Debuggee, op: Opcode)
    requires M.Framed(isa) && Follows(isa, s, d) && AllAllowed(isa, s, es, d)
    ensures var c', stops := After(isa, s, es).core, RefAfter(isa, s, es, d).traps - d.traps;
      && stops >= 0
      && CountOf(c', op) == CountOf(s.core, op) + S.Opcodes(isa, d.arch, Script(isa, s, es, d))[op]
                            + if op == Ebreak then stops else 0
  {
    hide Follows, AllAllowed, After, RefAfter, Script, CountOf, S.Opcodes, S.Replay, S.Length;
    SessionFollows(isa, s, es, d);
    SessionReplays(isa, s, es, d);
  }
}
