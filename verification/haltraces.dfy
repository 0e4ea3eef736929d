/** A Halt that meets a run: how soon it takes effect, how it is lost when it comes too early, and what
    it spoils when it comes after a breakpoint has already stopped the worker. */
module HaltRaces {
  import opened Words
  import opened Controller
  import opened Patching
  import opened Transparency
  import opened Interleaving
  import opened Sessions
  import M = Machine
  import Ref = Reference

  // ---------------------------------------------------------------- the Halt that comes too late

  /** Halt's write of halt_reason_ keeps the shown pc right exactly when no trap has set the reason
      before it, whether or not the trap has been published. */
  lemma HaltOverwriteExact(isa: M.InstructionSet, s: Sys, d: Ref.Debuggee)
    requires M.Framed(isa) && Follows(isa, s, d) && s.halt == HaltAccepted
    ensures ShownPc(Next(isa, s, HaltWritesReason)) == d.arch.pc <==> s.core.reason != SoftwareBreakpoint
    ensures Follows(isa, Next(isa, s, HaltWritesReason), d) <==> s.core.reason != SoftwareBreakpoint
  {
    hide Inv, Restores, M.Fetch, M.Framed;
    if !Pending(s.core) { HaltFollows(isa, s, HaltWritesReason, d); }
    FallThroughDiffers(d.arch.pc);
  }

  lemma FallThroughDiffers(pc: Word)
    ensures Wrap(pc + 4) != pc
  {
  }

  /** The reference debugger with the instruction under its breakpoint skipped. */
  function Skipped(d: Ref.Debuggee): Ref.Debuggee
  {
    d.(arch := d.arch.(pc := Wrap(d.arch.pc + 4)), stopped := false)
  }

  /** After the overwrite the session goes on as if the owed instruction had been skipped. */
  lemma HaltOverwriteSkips(isa: M.InstructionSet, s: Sys, d: Ref.Debuggee)
    requires M.Framed(isa) && Follows(isa, s, d) && s.halt == HaltAccepted
    requires s.core.reason == SoftwareBreakpoint
    ensures Follows(isa, Next(isa, s, HaltWritesReason), Skipped(d))
  {
    hide Inv, Restores, M.Fetch, M.Framed;
    InvIgnoresControl(isa, s.core, Next(isa, s, HaltWritesReason).core);
  }

  /** And so does all that follows: the session is one of a debugger that skipped the instruction. */
  lemma HaltOverwriteSession(isa: M.InstructionSet, s: Sys, es: seq<Event>, d: Ref.Debuggee)
    requires M.Framed(isa) && Follows(isa, s, d) && s.halt == HaltAccepted
    requires s.core.reason == SoftwareBreakpoint
    requires AllAllowed(isa, Next(isa, s, HaltWritesReason), es, Skipped(d))
    ensures var s' := After(isa, s, [HaltWritesReason] + es);
      var d' := RefAfter(isa, Next(isa, s, HaltWritesReason), es, Skipped(d));
      Follows(isa, s', d') && CountsAlike(s.core, d, s'.core, d')
  {
    hide Follows, AllAllowed, Skipped, RefAfter;
    var s1 := Next(isa, s, HaltWritesReason);
    HaltOverwriteSkips(isa, s, d);
    SessionFollows(isa, s1, es, Skipped(d));
    assert ([HaltWritesReason] + es)[1..] == es;
    SkippedCounts(d);
  }

  lemma SkippedCounts(d: Ref.Debuggee)
    ensures Skipped(d).retired == d.retired && Skipped(d).traps == d.traps && Skipped(d).ops == d.ops
  {
  }

  // ---------------------------------------------------------------- the Halt that comes too early

  /** A Halt may get past its check as soon as Run has set run_status_. If its write of halted_ comes
      before Run clears the flag it is lost: the worker starts as if there had been no such write. If
      it comes after, the flag is up when the worker first tests it. */
  lemma EarlyHaltLost(isa: M.InstructionSet, s: Sys)
    requires s.control.Launching? && s.halt == HaltReasoned
    ensures After(isa, s, [HaltWritesFlag, RunSpawns]) == Next(isa, s, RunSpawns).(halt := NoHalt)
    ensures !After(isa, s, [HaltWritesFlag, RunSpawns]).core.halted
    ensures After(isa, s, [RunSpawns, HaltWritesFlag]).core.halted
  {
    hide SetBreakpoint, ClearBreakpoint, ClearAll, Step, Begin, Disassembled, WorkerNext;
    AfterTwo(isa, s, HaltWritesFlag, RunSpawns);
    AfterTwo(isa, s, RunSpawns, HaltWritesFlag);
  }

  lemma AfterTwo(isa: M.InstructionSet, s: Sys, e: Event, f: Event)
    ensures After(isa, s, [e, f]) == Next(isa, Next(isa, s, e), f)
  {
    hide Next;
    assert [e, f][1..] == [f] && [f][1..] == [];
    assert After(isa, s, [e, f]) == After(isa, Next(isa, s, e), [f]);
    assert After(isa, Next(isa, s, e), [f]) == After(isa, Next(isa, Next(isa, s, e), f), []);
  }

  // ---------------------------------------------------------------- response to a halt

  /** The instructions executed by the worker from here until the end of the run is published. */
  function Executions(isa: M.InstructionSet, s: Sys, es: seq<Event>): nat
    decreases |es|
  {
    if es == [] || s.core.status != Running then 0
    else
      (if es[0].WorkerExecutes? && At(s, es[0].k, Executing) then 1 else 0)
      + Executions(isa, Next(isa, s, es[0]), es[1..])
  }

  lemma HaltStays(isa: M.InstructionSet, s: Sys, e: Event)
    requires ThreadSafe(s) && s.workers != [] && s.core.halted
    ensures var s' := Next(isa, s, e);
      && s'.core.halted
      && (s'.workers == [] ==> s'.core.status == Halted)
      && (s'.workers != [] ==>
            (s'.workers[0].phase == Executing <==>
               s.workers[0].phase == Executing && !(e.WorkerExecutes? && At(s, e.k, Executing))))
  {
    hide Turn, Traps;
    if e.WorkerExecutes? && At(s, e.k, Executing) { TurnKeepsHalt(isa, s.core, s.workers[0].next); }
  }

  lemma TurnKeepsHalt(isa: M.InstructionSet, c: Core, next: Word)
    ensures Turn(isa, c, next).core.status == c.status
    ensures c.halted ==> Turn(isa, c, next).core.halted
  {
  }

  /** Once halted_ is set, every continuation executes at most the one instruction the worker was
      already committed to before the end of the run is published. */
  lemma {:induction false} HaltIsPrompt(isa: M.InstructionSet, s: Sys, es: seq<Event>)
    requires ThreadSafe(s) && s.workers != [] && s.core.halted
    ensures Executions(isa, s, es) <= if s.workers[0].phase == Executing then 1 else 0
    decreases |es|
  {
    hide Next;
    if es != [] {
      var s' := Next(isa, s, es[0]);
      NextThreadSafe(isa, s, es[0]);
      HaltStays(isa, s, es[0]);
      if s'.workers != [] { HaltIsPrompt(isa, s', es[1..]); }
    }
  }

  /** The worker's next event, at its phase. */
  function WorkerEvent(w: Worker): Event
  {
    match w.phase
    case Starting => WorkerStarts(0)
    case Testing => WorkerTests(0)
    case Executing => WorkerExecutes(0)
    case Flagging => WorkerFlags(0)
    case Publishing => WorkerPublishes(0)
  }

  /** How many more events the worker can make once halted_ is set. */
  function Remaining(w: Worker): nat
  {
    match w.phase
    case Publishing => 1
    case Testing => 2
    case Starting | Flagging => 3
    case Executing => 4
  }

  /** The worker's own events from here until the end of the run is published. */
  function WorkerMoves(isa: M.InstructionSet, s: Sys, es: seq<Event>): nat
    decreases |es|
  {
    if es == [] || s.workers == [] then 0
    else
      (if es[0] == WorkerEvent(s.workers[0]) then 1 else 0) + WorkerMoves(isa, Next(isa, s, es[0]), es[1..])
  }

  /** The end of the run is published at some point. */
  predicate Published(isa: M.InstructionSet, s: Sys, es: seq<Event>)
    decreases |es|
  {
    s.core.status == Halted || (es != [] && Published(isa, Next(isa, s, es[0]), es[1..]))
  }

  /** The worker's own event takes it on; no other event moves it. */
  lemma WorkerMovesOn(isa: M.InstructionSet, s: Sys, e: Event)
    requires ThreadSafe(s) && s.workers != [] && s.core.halted
    ensures var s', w := Next(isa, s, e), s.workers[0];
      && ThreadSafe(s') && s'.core.halted
      && if e == WorkerEvent(w) then
           if w.phase == Publishing then s'.core.status == Halted
           else s'.workers != [] && Remaining(s'.workers[0]) < Remaining(w)
         else s'.workers == s.workers
  {
    hide Turn, Traps;
    NextThreadSafe(isa, s, e);
    if e.WorkerExecutes? && At(s, e.k, Executing) { TurnKeepsHalt(isa, s.core, s.workers[0].next); }
  }

  /** Once halted_ is set, at most four events of the worker publish the end of the run, whatever the
      controller does between them. */
  lemma {:induction false} HaltPublishes(isa: M.InstructionSet, s: Sys, es: seq<Event>)
    requires ThreadSafe(s) && s.workers != [] && s.core.halted
    ensures WorkerMoves(isa, s, es) <= Remaining(s.workers[0]) <= 4
    ensures WorkerMoves(isa, s, es) == Remaining(s.workers[0]) ==> Published(isa, s, es)
    decreases |es|
  {
    hide Next;
    if es != [] {
      var s' := Next(isa, s, es[0]);
      WorkerMovesOn(isa, s, es[0]);
      if s'.workers != [] { HaltPublishes(isa, s', es[1..]); }
    }
  }

  /** And while it lives the worker always has such an event to make. */
  lemma WorkerNeverStuck(isa: M.InstructionSet, s: Sys)
    requires ThreadSafe(s) && s.workers != []
    ensures Next(isa, s, WorkerEvent(s.workers[0])) != s
  {
    hide Turn, Traps;
  }

  // ---------------------------------------------------------------- a Halt from its call to its effect

  /** Past its status check, and not yet done. */
  predicate Underway(h: HaltCall)
  {
    h == HaltAccepted || h == HaltReasoned
  }

  /** A Halt gets past its check exactly when the simulator is running, wherever the controller is. */
  lemma HaltAcceptedExactly(isa: M.InstructionSet, s: Sys)
    requires s.halt == NoHalt
    ensures Next(isa, s, HaltCmd) == if s.core.status == Running then s.(halt := HaltAccepted) else s
  {
    hide WorkerNext, Step, Begin, SetBreakpoint, ClearBreakpoint, ClearAll, Disassembled;
  }

  /** Its two writes. */
  lemma HaltWrites(isa: M.InstructionSet, s: Sys)
    ensures s.halt == HaltAccepted ==>
              Next(isa, s, HaltWritesReason) == s.(core := s.core.(reason := UserRequest), halt := HaltReasoned)
    ensures s.halt == HaltReasoned ==>
              Next(isa, s, HaltWritesReason) == s
              && Next(isa, s, HaltWritesFlag) == s.(core := s.core.(halted := true), halt := NoHalt)
  {
    hide WorkerNext, Step, Begin, SetBreakpoint, ClearBreakpoint, ClearAll, Disassembled;
  }

  /** Nothing takes a Halt back, or on, but its own next step. */
  lemma HaltHolds(isa: M.InstructionSet, s: Sys, e: Event)
    requires Underway(s.halt) && e != HaltWritesFlag
    ensures var h := Next(isa, s, e).halt; Underway(h) && (h != s.halt ==> e == HaltWritesReason && h == HaltReasoned)
  {
    hide Turn, Traps, Step, Begin, SetBreakpoint, ClearBreakpoint, ClearAll, Disassembled;
  }

  lemma {:induction false} HaltHoldsOn(isa: M.InstructionSet, s: Sys, es: seq<Event>)
    requires Underway(s.halt) && HaltWritesFlag !in es
    ensures var h := After(isa, s, es).halt;
      Underway(h) && (s.halt == HaltReasoned || HaltWritesReason !in es ==> h == s.halt)
    decreases |es|
  {
    hide Next;
    if es != [] {
      HaltHolds(isa, s, es[0]);
      HaltHoldsOn(isa, Next(isa, s, es[0]), es[1..]);
    }
  }

  lemma {:induction false} AfterJoins(isa: M.InstructionSet, s: Sys, es: seq<Event>, e: Event, fs: seq<Event>)
    ensures After(isa, s, es + [e] + fs) == After(isa, Next(isa, After(isa, s, es), e), fs)
    decreases |es|
  {
    hide Next;
    assert es + [e] + fs == es + ([e] + fs);
    if es == [] {
      assert (es + [e] + fs)[1..] == fs;
    } else {
      assert (es + [e] + fs)[1..] == es[1..] + [e] + fs;
      AfterJoins(isa, Next(isa, s, es[0]), es[1..], e, fs);
    }
  }

  /** The steps of one call of Halt, with other events between them. */
  function Call(reason: seq<Event>, flag: seq<Event>): seq<Event>
  {
    [HaltCmd] + reason + [HaltWritesReason] + flag + [HaltWritesFlag]
  }

  /** A Halt called on a running simulator sets the reason and then the flag, whatever happens between
      its steps. */
  lemma CalledHaltFlags(isa: M.InstructionSet, s: Sys, reason: seq<Event>, flag: seq<Event>)
    requires s.core.status == Running && s.halt == NoHalt
    requires HaltWritesReason !in reason && HaltWritesFlag !in reason && HaltWritesFlag !in flag
    ensures After(isa, s, [HaltCmd] + reason + [HaltWritesReason]).core.reason == UserRequest
    ensures var t := After(isa, s, Call(reason, flag)); t.core.halted && t.halt == NoHalt
  {
    hide Next;
    var s1 := Next(isa, s, HaltCmd);
    HaltAcceptedExactly(isa, s);
    var s2 := After(isa, s1, reason);
    HaltHoldsOn(isa, s1, reason);
    assert ([HaltCmd] + reason)[1..] == reason;
    assert After(isa, s, [HaltCmd] + reason) == s2;
    var s3 := Next(isa, s2, HaltWritesReason);
    HaltWrites(isa, s2);
    AfterJoins(isa, s, [HaltCmd] + reason, HaltWritesReason, []);
    assert [HaltCmd] + reason + [HaltWritesReason] + [] == [HaltCmd] + reason + [HaltWritesReason];
    var s4 := After(isa, s3, flag);
    HaltHoldsOn(isa, s3, flag);
    AfterJoins(isa, s, [HaltCmd] + reason, HaltWritesReason, flag);
    HaltWrites(isa, s4);
    AfterJoins(isa, s, [HaltCmd] + reason + [HaltWritesReason] + flag, HaltWritesFlag, []);
    assert Call(reason, flag) + [] == Call(reason, flag);
    assert Call(reason, flag) == [HaltCmd] + reason + [HaltWritesReason] + flag + [HaltWritesFlag] + [];
  }

  /** A Halt called on a running simulator, whatever happens between its steps, ends the run: when its
      flag is written the run is over already, or the worker makes at most four more events and at most
      one more execution, or Run is still launching and the request is lost. */
  lemma HaltEndsRun(isa: M.InstructionSet, s: Sys, reason: seq<Event>, flag: seq<Event>, es: seq<Event>)
    requires ThreadSafe(s) && s.core.status == Running && s.halt == NoHalt
    requires HaltWritesReason !in reason && HaltWritesFlag !in reason && HaltWritesFlag !in flag
    ensures var t := After(isa, s, Call(reason, flag));
      && ThreadSafe(t) && t.core.halted
      && (t.core.status == Halted || t.workers != [] || t.control.Launching?)
      && (t.workers != [] ==>
            && Executions(isa, t, es) <= 1
            && WorkerMoves(isa, t, es) <= Remaining(t.workers[0]) <= 4
            && (WorkerMoves(isa, t, es) == Remaining(t.workers[0]) ==> Published(isa, t, es)))
      && (t.control.Launching? ==> !Next(isa, t, RunSpawns).core.halted)
  {
    hide After, Call, Executions, WorkerMoves, Published, Remaining, WorkerNext;
    hide Step, Begin, SetBreakpoint, ClearBreakpoint, ClearAll, Disassembled;
    CalledHaltFlags(isa, s, reason, flag);
    AlwaysThreadSafe(isa, s, Call(reason, flag));
    var t := After(isa, s, Call(reason, flag));
    if t.workers != [] {
      HaltIsPrompt(isa, t, es);
      HaltPublishes(isa, t, es);
    }
  }
}
