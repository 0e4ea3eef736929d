/** Run and Step against each other, from a state in which a user can tell beforehand how they will
    compare. */
module RunAndStep {
  import opened Words
  import opened FlatMemory
  import opened Controller
  import opened Patching
  import opened StepLaws
  import opened Transparency
  import M = Machine
  import Ref = Reference

  /** Leaving a breakpoint raises halted_ exactly when the breakpoint is still listed and the program's
      own instruction under it is an ebreak. */
  lemma EchoExact(isa: M.InstructionSet, c: Core, d: Ref.Debuggee)
    requires M.Framed(isa) && Tracks(isa, c, d)
    requires d.stopped ==> Leavable(isa, d.arch, c.bps, CodeOf(c.cache))
    ensures Echo(isa, c) == Ref.Echoes(isa, d, c.bps.Keys)
  {
    hide Inv, Shows, Leavable, StepOver, M.Fetch, CodeOf, ResumeCached;
    var c0 := c.(status := SingleStep, halted := false);
    InvIgnoresControl(isa, c, c0);
    TracksControl(isa, c, c0, d);
    ResumeSimulates(isa, c0, d);
  }

  lemma TracksControl(isa: M.InstructionSet, c: Core, c': Core, d: Ref.Debuggee)
    requires Tracks(isa, c, d) && c' == c.(status := c'.status, halted := c'.halted)
    ensures Tracks(isa, c', d)
  {
    hide Inv, M.Fetch;
    InvIgnoresControl(isa, c, c');
  }

  /** Two turns or more are made exactly if two are asked for and the first is at no breakpoint. */
  lemma TurnsBeyondOne(isa: M.InstructionSet, d: Ref.Debuggee, bps: set<Addr>, n: nat)
    requires !d.stopped
    ensures var d' := Ref.Turns(isa, d, bps, n);
      d'.retired + d'.traps > d.retired + d.traps + 1 <==> n > 1 && d.arch.pc !in bps
  {
    hide M.Step, Ref.NextOp;
    Ref.TurnsCount(isa, d, bps, n);
    if n > 1 {
      var d1 := Ref.Turn(isa, d, bps);
      assert Ref.Turns(isa, d, bps, n) == Ref.Turns(isa, d1, bps, n - 1);
      if !d1.stopped {
        var d2 := Ref.Turn(isa, d1, bps);
        assert Ref.Turns(isa, d1, bps, n - 1) == Ref.Turns(isa, d2, bps, n - 2);
        TurnsMonotone(isa, d2, bps, n - 2);
      }
    }
  }

  lemma {:induction false} TurnsMonotone(isa: M.InstructionSet, d: Ref.Debuggee, bps: set<Addr>, n: nat)
    ensures var d' := Ref.Turns(isa, d, bps, n); d'.retired + d'.traps >= d.retired + d.traps
    decreases n
  {
    hide M.Step, Ref.NextOp;
    if n > 0 && !d.stopped { TurnsMonotone(isa, Ref.Turn(isa, d, bps), bps, n - 1); }
  }

  /** How many turns the worker of Run makes. */
  lemma WorkerTurnsExact(isa: M.InstructionSet, c: Core, d: Ref.Debuggee, turns: nat, u: Word)
    requires M.Framed(isa) && Tracks(isa, c, d) && SafeFrom(isa, d, c.bps, CodeOf(c.cache), turns)
    ensures WorkerTurns(isa, c, turns, u) > 1 <==> turns > 1 && Ref.Resume(isa, d).arch.pc !in c.bps
  {
    hide Inv, Restores, Leavable, Safe, M.Fetch, Loop, StepOver, M.Step, CodeOf, ResumeCached, TurnsCached;
    ResumeSimulates(isa, c, d);
    var c1, d1 := Launch(isa, c), Ref.Resume(isa, d);
    InvIgnoresControl(isa, if Pending(c) then StepOver(isa, c) else c, c1);
    LoopSimulates(isa, c1, d1, u, turns);
    TurnsBeyondOne(isa, d1, c.bps.Keys, turns);
  }

  /** Run and the matching Step leave the same registers, memory, pc, cache and counters exactly
      unless the core stands at a listed breakpoint on an ebreak of the program, more than one turn is
      to follow, and the next instruction has no breakpoint. */
  lemma RunMatchesStepExactly(isa: M.InstructionSet, c: Core, d: Ref.Debuggee, turns: nat, u: Word)
    requires M.Framed(isa) && Tracks(isa, c, d) && SafeFrom(isa, d, c.bps, CodeOf(c.cache), turns)
    requires c.status == Halted && turns + Done(c) > 0
    ensures Alike(Step(isa, c, turns + Done(c), u).core, RunToHalt(isa, c, turns, u))
            <==> !(Ref.Echoes(isa, d, c.bps.Keys) && turns > 1 && M.Step(isa, d.arch).pc !in c.bps)
  {
    hide Tracks, Leavable, Safe, Step, RunToHalt, Echo, WorkerTurns, Alike, M.Fetch, M.Step;
    EchoExact(isa, c, d);
    WorkerTurnsExact(isa, c, d, turns, u);
    RunMatchesStep(isa, c, turns, u);
  }

  /** Away from such an ebreak, a run that a breakpoint ends is the Step with as many turns in every
      field, and a run that a Halt ends differs from it only in saying so. */
  lemma RunIsStep(isa: M.InstructionSet, c: Core, d: Ref.Debuggee, turns: nat, u: Word)
    requires M.Framed(isa) && Tracks(isa, c, d)
    requires d.stopped ==> Leavable(isa, d.arch, c.bps, CodeOf(c.cache))
    requires c.status == Halted && turns + Done(c) > 0 && !Ref.Echoes(isa, d, c.bps.Keys)
    ensures var s := Step(isa, c, turns + Done(c), u);
      RunToHalt(isa, c, turns, u)
      == if s.core.halted then s.core else s.core.(reason := UserRequest, halted := true)
  {
    hide Tracks, Leavable, Step, RunToHalt, Echo;
    EchoExact(isa, c, d);
    RunAgreesWithStep(isa, c, turns, u);
  }
}
