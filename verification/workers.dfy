/** The threaded worker of Run against the loop in one piece: whatever the controller and a Halt do
    between the worker's steps, the run ends where RunToHalt ends. */
module Workers {
  import opened Words
  import opened Controller
  import opened StepLaws
  import opened Interleaving
  import opened HaltRaces
  import M = Machine

  /** The events lead to the end of the run, and not past it. */
  predicate EndsRun(isa: M.InstructionSet, s: Sys, es: seq<Event>)
    decreases |es|
  {
    if s.core.status == Halted then es == [] else es != [] && EndsRun(isa, Next(isa, s, es[0]), es[1..])
  }

  /** The core after n turns of a loop that starts with halted_ clear, written back and published. */
  function Finished(isa: M.InstructionSet, c: Core, next: Word, last: Word, n: nat): Core
  {
    WriteBack(Loop(isa, c.(halted := false), next, last, n)).(status := Halted)
  }

  lemma FinishedAlike(isa: M.InstructionSet, c: Core, c': Core, next: Word, last: Word, n: nat)
    requires Alike(c, c')
    ensures Alike(Finished(isa, c, next, last, n), Finished(isa, c', next, last, n))
  {
    hide Turn, Loop;
    LoopOfTwins(isa, c.(halted := false), c'.(halted := false), next, last, last, n);
  }

  /** A turn does not look at halted_, and sets it and the reason exactly if it traps. */
  lemma TurnTraps(isa: M.InstructionSet, c: Core, next: Word)
    ensures var p, p' := Turn(isa, c, next), Turn(isa, c.(halted := false), next);
      && p'.next == p.next && Alike(p'.core, p.core) && p'.core.halted == Traps(isa, c, next)
      && (!p'.core.halted ==> p'.core == p.core.(halted := false))
  {
    hide Cached, Filled;
  }

  /** One more turn in front of a loop. */
  lemma FinishedStep(isa: M.InstructionSet, c: Core, next: Word, last: Word, n: nat)
    requires Traps(isa, c, next) ==> n == 0
    ensures var p := Turn(isa, c, next);
      Alike(Finished(isa, p.core, p.next, next, n), Finished(isa, c, next, last, n + 1))
  {
    hide Turn, Traps;
    TurnTraps(isa, c, next);
  }

  /** Where the worker goes on, and whether it will execute anything more. */
  function Continues(s: Sys): Word
    requires s.workers != []
  {
    if s.workers[0].phase == Starting then s.core.pcReg else s.workers[0].next
  }

  /** The worker's event at each phase. */
  lemma WorkerSteps(isa: M.InstructionSet, s: Sys, e: Event)
    requires ThreadSafe(s) && s.workers != [] && IsWorkerEvent(e)
    ensures var s', w, c := Next(isa, s, e), s.workers[0], s.core;
      var p := Turn(isa, c, w.next);
      if e != WorkerEvent(w) then s' == s
      else match w.phase
           case Starting => s'.core == c && s'.workers == [w.(phase := Testing, next := c.pcReg)]
           case Testing => s'.core == c && s'.workers == [w.(phase := if c.halted then Publishing else Executing)]
           case Executing =>
             if Traps(isa, c, w.next) then
               s'.core == p.core.(halted := c.halted) && s'.workers == [Worker(Flagging, p.next, w.next)]
             else s'.core == p.core && s'.workers == [Worker(Testing, p.next, w.next)]
           case Flagging => s'.core == c.(halted := true) && s'.workers == [w.(phase := Testing)]
           case Publishing => s'.core == c.(previousPc := w.pc, pcReg := w.next, status := Halted)
  {
    hide Turn, Traps, ControllerNext;
    assert |s.workers| == 1;
  }

  /** From any point of the run on: the rest of it is the loop with as many turns as are executed. */
  lemma {:induction false} RestOfRun(isa: M.InstructionSet, s: Sys, es: seq<Event>)
    requires ThreadSafe(s) && s.workers != [] && EndsRun(isa, s, es)
    ensures var n := Executions(isa, s, es);
      && (s.workers[0].phase == Flagging || s.workers[0].phase == Publishing ==> n == 0)
      && Alike(After(isa, s, es).core, Finished(isa, s.core, Continues(s), s.workers[0].pc, n))
    decreases |es|
  {
    hide Next, ThreadSafe, Finished, Turn, Traps;
    OneWorker(s);
    var e, s', w := es[0], Next(isa, s, es[0]), s.workers[0];
    var n := Executions(isa, s', es[1..]);
    NextThreadSafe(isa, s, e);
    if !IsWorkerEvent(e) {
      RunningLocksOut(isa, s, e);
      RestOfRun(isa, s', es[1..]);
      FinishedAlike(isa, s'.core, s.core, Continues(s), w.pc, n);
    } else {
      WorkerSteps(isa, s, e);
      if w.phase == Publishing && e == WorkerEvent(w) {
        PublishedIsFinished(isa, s.core, w);
      } else {
        RestOfRun(isa, s', es[1..]);
        if w.phase == Executing && e == WorkerEvent(w) {
          FinishedStep(isa, s.core, w.next, w.pc, n);
          FinishedAlike(isa, s'.core, Turn(isa, s.core, w.next).core, Continues(s'), w.next, n);
        } else if w.phase == Flagging && e == WorkerEvent(w) {
          HaltIsPrompt(isa, s', es[1..]);
          FinishedAlike(isa, s'.core, s.core, w.next, w.pc, 0);
        }
      }
    }
  }

  lemma PublishedIsFinished(isa: M.InstructionSet, c: Core, w: Worker)
    ensures Alike(c.(previousPc := w.pc, pcReg := w.next, status := Halted), Finished(isa, c, w.next, w.pc, 0))
  {
  }

  lemma OneWorker(s: Sys)
    requires ThreadSafe(s)
    ensures s.workers != [] ==> |s.workers| == 1 && s.core.status == Running
    ensures s.workers == [] && s.core.status == Running ==> s.control.Launching?
    ensures s.control.Launching? ==> s.workers == [] && s.core.status == Running
  {
  }

  /** Before the worker exists a Halt can change only halt_reason_ and halted_. */
  lemma {:induction false} RunFromLaunch(isa: M.InstructionSet, s: Sys, es: seq<Event>)
    requires ThreadSafe(s) && s.control.Launching? && EndsRun(isa, s, es)
    ensures Alike(After(isa, s, es).core,
                  Finished(isa, s.core, s.core.pcReg, s.control.uninit, Executions(isa, s, es)))
    decreases |es|
  {
    hide Next, ThreadSafe, Finished;
    OneWorker(s);
    var e, s' := es[0], Next(isa, s, es[0]);
    NextThreadSafe(isa, s, e);
    LaunchMoves(isa, s, e);
    FinishedAlike(isa, s'.core, s.core, s.core.pcReg, s.control.uninit, Executions(isa, s', es[1..]));
    if e == RunSpawns { RestOfRun(isa, s', es[1..]); } else { RunFromLaunch(isa, s', es[1..]); }
  }

  lemma LaunchMoves(isa: M.InstructionSet, s: Sys, e: Event)
    requires ThreadSafe(s) && s.control.Launching?
    ensures var s' := Next(isa, s, e);
      && Alike(s.core, s'.core)
      && if e == RunSpawns then s'.workers == [Worker(Starting, 0, s.control.uninit)] && !s'.core.halted
         else s'.control == s.control
  {
    hide Turn, Traps, SetBreakpoint, ClearBreakpoint, ClearAll, Step, Begin, Disassembled;
    StepRefused(isa, s.core, e);
  }

  lemma StepRefused(isa: M.InstructionSet, c: Core, e: Event)
    requires c.status == Running
    ensures e.StepCmd? ==> !Step(isa, c, e.num, e.uninit).Stepped?
  {
    hide Loop, StepOver;
  }

  /** Run on a simulator at rest starts one worker at the pc, with the flag clear and a notification to
      come; on a running one it changes nothing. */
  lemma RunStarts(isa: M.InstructionSet, s: Sys, u: Word)
    requires ThreadSafe(s) && s.control == Idle
    ensures s.core.status == Running ==> Next(isa, s, RunCmd(u)) == s
    ensures s.core.status == Halted ==>
              var t := After(isa, s, [RunCmd(u), RunSpawns]);
              && t.core == Launch(isa, s.core) && t.core.status == Running && !t.core.halted
              && t.workers == [Worker(Starting, 0, u)]
              && t.control == Idle && t.halt == s.halt && t.runHalted == Some(false)
  {
    hide StepOver, WorkerNext, Step, SetBreakpoint, ClearBreakpoint, ClearAll, Disassembled;
    AfterTwo(isa, s, RunCmd(u), RunSpawns);
  }

  /** The worker executes an ebreak under a listed breakpoint on the way. */
  predicate Trapped(isa: M.InstructionSet, s: Sys, es: seq<Event>)
    decreases |es|
  {
    es != []
    && ((es[0].WorkerExecutes? && At(s, es[0].k, Executing) && Traps(isa, s.core, s.workers[es[0].k].next))
        || Trapped(isa, Next(isa, s, es[0]), es[1..]))
  }

  /** A worker stops only for a reason: halted_ is set when it is done, and if no Halt has set it the
      worker has trapped. */
  lemma {:induction false} StopsForAReason(isa: M.InstructionSet, s: Sys, es: seq<Event>)
    requires ThreadSafe(s) && s.workers != [] && EndsRun(isa, s, es)
    requires s.workers[0].phase == Publishing ==> s.core.halted
    ensures After(isa, s, es).core.halted
    ensures HaltWritesFlag !in es && !s.core.halted && s.workers[0].phase != Flagging ==> Trapped(isa, s, es)
    decreases |es|
  {
    hide Next, ThreadSafe, Turn, Traps;
    OneWorker(s);
    var e, s', w := es[0], Next(isa, s, es[0]), s.workers[0];
    NextThreadSafe(isa, s, e);
    if !IsWorkerEvent(e) {
      RunningLocksOut(isa, s, e);
      FlagByHalt(isa, s, e);
      StopsForAReason(isa, s', es[1..]);
    } else {
      WorkerSteps(isa, s, e);
      if e == WorkerEvent(w) && w.phase == Executing { TurnTraps(isa, s.core, w.next); }
      if e == WorkerEvent(w) && w.phase == Publishing {
      } else {
        StopsForAReason(isa, s', es[1..]);
      }
    }
  }

  /** While a worker lives nobody but a Halt and the worker touches halted_. */
  lemma FlagByHalt(isa: M.InstructionSet, s: Sys, e: Event)
    requires ThreadSafe(s) && s.workers != [] && !IsWorkerEvent(e)
    ensures s.core.halted ==> Next(isa, s, e).core.halted
    ensures e != HaltWritesFlag ==> Next(isa, s, e).core.halted == s.core.halted
  {
    hide Turn, Step, Begin, SetBreakpoint, ClearBreakpoint, ClearAll, Disassembled, WorkerNext;
    StepRefused(isa, s.core, e);
  }

  lemma {:induction false} LaunchStopsForAReason(isa: M.InstructionSet, s: Sys, es: seq<Event>)
    requires ThreadSafe(s) && s.control.Launching? && EndsRun(isa, s, es)
    ensures After(isa, s, es).core.halted
    ensures HaltWritesFlag !in es ==> Trapped(isa, s, es)
    decreases |es|
  {
    hide Next, ThreadSafe;
    OneWorker(s);
    var e, s' := es[0], Next(isa, s, es[0]);
    NextThreadSafe(isa, s, e);
    LaunchMoves(isa, s, e);
    if e == RunSpawns { StopsForAReason(isa, s', es[1..]); } else { LaunchStopsForAReason(isa, s', es[1..]); }
  }

  /** Every run, through every interleaving of its steps with the controller's and a Halt's, leaves the
      core that RunToHalt leaves with as many turns as were executed, but for what it says about the
      halt. It ends with halted_ set, and if no Halt has set it, because the worker has trapped. */
  lemma ThreadedRunIsRunToHalt(isa: M.InstructionSet, s: Sys, u: Word, es: seq<Event>)
    requires ThreadSafe(s) && Admitted(s) && EndsRun(isa, Next(isa, s, RunCmd(u)), es)
    ensures var n := Executions(isa, Next(isa, s, RunCmd(u)), es);
      Alike(After(isa, s, [RunCmd(u)] + es).core, RunToHalt(isa, s.core, n, u))
    ensures After(isa, s, [RunCmd(u)] + es).core.halted
    ensures HaltWritesFlag !in es ==> Trapped(isa, Next(isa, s, RunCmd(u)), es)
  {
    hide ThreadSafe, StepOver, Loop, EndsRun, Executions, Trapped;
    var s' := Next(isa, s, RunCmd(u));
    NextThreadSafe(isa, s, RunCmd(u));
    RunFromLaunch(isa, s', es);
    LaunchStopsForAReason(isa, s', es);
    assert ([RunCmd(u)] + es)[1..] == es;
  }
}
