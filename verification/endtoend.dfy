/** The layers put together: what a user of the debugger sees of a program is what the RISC-V
    Unprivileged ISA says the program does. */
module EndToEnd {
  import opened Words
  import opened FlatMemory
  import opened BinFormat
  import opened Isa
  import opened Semantics
  import opened Patching
  import opened Transparency
  import opened Interleaving
  import opened Sessions
  import M = Machine
  import C = Controller
  import Ref = Reference
  import Scripts
  import Spec = Refinement

  /** The reference debugger in front of a program that has not started. */
  function Start(c: C.Core): Ref.Debuggee
  {
    Ref.Debuggee(M.Arch(c.x, c.pcReg, c.mem), false, 0, 0, multiset{})
  }

  /** A halted core with nothing cached and no breakpoint shows its own registers and memory. */
  lemma FreshTracks(isa: M.InstructionSet, c: C.Core)
    requires c.cache == map[] && c.bps == map[] && c.reason == C.NoReason
    ensures Tracks(isa, c, Start(c))
  {
    hide ByteAt;
  }

  /** Both threads at rest after construction and loading: every session starts in the relation. */
  lemma FreshFollows(isa: M.InstructionSet, c: C.Core)
    requires c.cache == map[] && c.bps == map[] && c.reason == C.NoReason && c.status == C.Halted
    ensures Follows(isa, Sys(c, [], Idle, NoHalt, None), Start(c))
  {
    FreshTracks(isa, c);
    HaltedTracks(isa, Sys(c, [], Idle, NoHalt, None), Start(c));
  }

  /** The core shows the state that the manual's execution retires in. */
  ghost predicate ShowsManual(c: C.Core, e: Spec.Execution)
  {
    e.Retires? && c.x == e.state.x && VisiblePc(c) == e.state.pc && Restores(c.mem, c.bps, e.state.mem)
  }

  lemma RestoresSame(m: Memory, bps: C.Breakpoints, plain: Memory, plain': Memory)
    requires Restores(m, bps, plain) && Same(plain, plain')
    ensures Restores(m, bps, plain')
  {
    forall k ensures Get(plain', k) == RestoredByte(m, bps, k) { assert Get(plain, k) == RestoredByte(m, bps, k); }
  }

  /** A core that tracks a reference debugger in the manual's state shows that state. */
  lemma TracksManual(isa: M.InstructionSet, c: C.Core, d: Ref.Debuggee, e: Spec.Execution)
    requires Tracks(isa, c, d) && Spec.Conforms(d.arch, e)
    ensures ShowsManual(c, e)
  {
    hide Inv, Restores, M.Fetch;
    RestoresSame(c.mem, c.bps, d.arch.mem, e.state.mem);
  }

  /** A whole session of breakpoints, steps, runs, halts and register writes, under any interleaving
      of the two threads: once it is at rest, a user sees the state in which the manual leaves the
      session's script, whose instructions are those executed less the traps. */
  lemma SessionByTheBook(illegalSize: Word, s: Sys, es: seq<Event>, d: Ref.Debuggee)
    requires Follows(M.RV32(illegalSize), s, d) && AllAllowed(M.RV32(illegalSize), s, es, d)
    requires After(M.RV32(illegalSize), s, es).core.status == C.Halted
    requires Scripts.ByTheBook(d.arch, Script(M.RV32(illegalSize), s, es, d))
    ensures var c, d' := After(M.RV32(illegalSize), s, es).core, RefAfter(M.RV32(illegalSize), s, es, d);
      var script := Script(M.RV32(illegalSize), s, es, d);
      && ShowsManual(c, Scripts.Play(d.arch, script))
      && Scripts.Length(script) == c.numInstructions - s.core.numInstructions - (d'.traps - d.traps)
  {
    hide Follows, AllAllowed, After, RefAfter, Script, Tracks, Scripts.ByTheBook, Scripts.Play, M.RV32;
    var isa := M.RV32(illegalSize);
    M.Rv32Framed(illegalSize);
    SessionFollows(isa, s, es, d);
    SessionReplays(isa, s, es, d);
    Scripts.PlayRefines(illegalSize, d.arch, d.arch, Script(isa, s, es, d));
    var s', d' := After(isa, s, es), RefAfter(isa, s, es, d);
    FollowsSafe(isa, s', d');
    HaltedTracks(isa, s', d');
    TracksManual(isa, s'.core, d', Scripts.Play(d.arch, Script(isa, s, es, d)));
  }

  /** The instructions that the reference debugger retires on its way. */
  function Retired(d: Ref.Debuggee, d': Ref.Debuggee): nat
  {
    if d'.retired >= d.retired then d'.retired - d.retired else 0
  }

  /** Step(num) brings the state a user sees to the manual's state after as many instructions as it
      reports, less the trap if it stopped in front of a breakpoint. It may start on a pending
      breakpoint, and stops early only at a breakpoint. Nothing is asked of what lies beyond it. */
  lemma StepByTheBook(illegalSize: Word, c: C.Core, d: Ref.Debuggee, num: int, uninit: Word)
    requires Tracks(M.RV32(illegalSize), c, d) && c.status == C.Halted && num > 0
    requires SafeFrom(M.RV32(illegalSize), d, c.bps, CodeOf(c.cache), if d.stopped then num - 1 else num)
    requires Spec.ByTheBook(d.arch, Retired(d, Ref.StepN(M.RV32(illegalSize), d, c.bps.Keys, num)))
    ensures var s := C.Step(M.RV32(illegalSize), c, num, uninit);
      && s.Stepped?
      && (if C.Pending(s.core) then 1 <= s.count <= num && VisiblePc(s.core) in c.bps else s.count == num)
      && ShowsManual(s.core, Spec.ManualRun(d.arch, if C.Pending(s.core) then s.count - 1 else s.count))
  {
    hide Inv, Restores, SafeFrom, C.Step, M.Step, M.Fetch, M.RV32, M.Run, Spec.ByTheBook, Spec.ManualRun;
    hide Ref.Echoes, Ref.Turns, CodeOf, StepCached, CountsAlike, Ref.OnTrajectory, Ref.NextOp;
    var isa := M.RV32(illegalSize);
    M.Rv32Framed(illegalSize);
    StepSimulates(isa, c, d, num, uninit);
    var s, d' := C.Step(isa, c, num, uninit), Ref.StepN(isa, d, c.bps.Keys, num);
    Ref.StepOnTrajectory(isa, d, c.bps.Keys, num);
    Ref.TrajectoryRuns(isa, d, d');
    CountsNumber(c, d, s.core, d');
    StepNCounts(isa, d, c.bps.Keys, num);
    var k := d'.retired - d.retired;
    if k > 0 { NoEbreakNext(illegalSize, d, c.bps.Keys, k); }
    Spec.RunRefines(illegalSize, d.arch, k);
    TracksManual(isa, s.core, d', Spec.ManualRun(d.arch, k));
  }

  /** A program that keeps to the manual has no ebreak of its own under the breakpoint it stands at. */
  lemma NoEbreakNext(illegalSize: Word, d: Ref.Debuggee, bps: set<Addr>, n: nat)
    requires Spec.ByTheBook(d.arch, n) && n > 0
    ensures !Ref.Echoes(M.RV32(illegalSize), d, bps)
  {
    hide DecodeOpcode, Spec.ManualStep, Spec.Straddles, Spec.Misaligned;
  }

  lemma StepNCounts(isa: M.InstructionSet, d: Ref.Debuggee, bps: set<Addr>, num: int)
    requires num > 0
    ensures var d' := Ref.StepN(isa, d, bps, num);
      && d'.traps == d.traps + (if d'.stopped then 1 else 0)
      && d'.retired + d'.traps <= d.retired + d.traps + num
      && (d'.stopped ==> d'.arch.pc in bps)
      && (!d'.stopped ==> d'.retired == d.retired + if Ref.Echoes(isa, d, bps) && num > 2 then 2 else num)
  {
    hide M.Step, M.Run, Ref.Turns;
    var d1 := Ref.Resume(isa, d);
    var left := if d.stopped then num - 1 else num;
    var turns := if Ref.Echoes(isa, d, bps) && left > 1 then 1 else left;
    Ref.TurnsRunPlain(isa, d1, bps, turns);
    Ref.TurnsCount(isa, d1, bps, turns);
  }

  /** The same for Run and its worker: a user sees the manual's state after the instructions executed,
      less the trap if a breakpoint ended the run before the Halt did. */
  lemma RunByTheBook(illegalSize: Word, c: C.Core, d: Ref.Debuggee, turns: nat, uninit: Word)
    requires Tracks(M.RV32(illegalSize), c, d)
    requires SafeFrom(M.RV32(illegalSize), d, c.bps, CodeOf(c.cache), turns)
    requires var isa := M.RV32(illegalSize);
      Spec.ByTheBook(d.arch, Retired(d, Ref.Turns(isa, Ref.Resume(isa, d), c.bps.Keys, turns)))
    ensures var c' := C.RunToHalt(M.RV32(illegalSize), c, turns, uninit);
      var count := c'.numInstructions - c.numInstructions;
      && 0 <= count <= turns + (if d.stopped then 1 else 0)
      && (if C.Pending(c') then 1 <= count && VisiblePc(c') in c.bps
          else count == turns + if d.stopped then 1 else 0)
      && ShowsManual(c', Spec.ManualRun(d.arch, if C.Pending(c') then count - 1 else count))
  {
    hide Inv, Restores, SafeFrom, C.RunToHalt, M.Step, M.Fetch, M.RV32, M.Run, Spec.ByTheBook, Spec.ManualRun;
    hide Ref.Turns, CodeOf, TurnsCached, ResumeCached, CountsAlike, Ref.OnTrajectory, Ref.NextOp;
    var isa := M.RV32(illegalSize);
    M.Rv32Framed(illegalSize);
    RunToHaltSimulates(isa, c, d, turns, uninit);
    var d1 := Ref.Resume(isa, d);
    var c', d' := C.RunToHalt(isa, c, turns, uninit), Ref.Turns(isa, d1, c.bps.Keys, turns);
    Ref.TurnOnTrajectory(isa, d, c.bps.Keys);
    Ref.TurnsRunPlain(isa, d1, c.bps.Keys, turns);
    Ref.TurnsCount(isa, d1, c.bps.Keys, turns);
    Ref.TurnsOnTrajectory(isa, d1, c.bps.Keys, turns);
    Ref.TrajectoryJoins(isa, d, d1, d');
    Ref.TrajectoryRuns(isa, d, d');
    CountsNumber(c, d, c', d');
    var k := d'.retired - d.retired;
    Spec.RunRefines(illegalSize, d.arch, k);
    TracksManual(isa, c', d', Spec.ManualRun(d.arch, k));
  }

  // ---------------------------------------------------------------- register x0

  /** No operand of an instruction is register x0 itself, so what the debugger writes there is
      not read and not overwritten. */
  lemma ZeroUnread(i: Inst, x: Regs, v: Word, m: Memory)
    ensures EffectOf(i, x[0 := v], m) == EffectOf(i, x, m)
  {
    hide AluResult, C.Pending, Semantics.Holds, Extend, Load, LowBytes, Written, Jumped;
    forall s: Source ensures Value(s, x[0 := v]) == Value(s, x) {}
  }

  /** Guest reads of x0 give 0 on every run, whatever the debugger wrote into x0. */
  lemma {:induction false} ZeroInvisible(illegalSize: Word, a: M.Arch, v: Word, n: nat)
    ensures var r := M.Run(M.RV32(illegalSize), a, n);
      M.Run(M.RV32(illegalSize), a.(x := a.x[0 := v]), n) == r.(x := r.x[0 := v])
    decreases n
  {
    hide EffectOf, Decode, LoadWord, StoreTo;
    if n > 0 {
      var isa, b := M.RV32(illegalSize), a.(x := a.x[0 := v]);
      ZeroUnread(M.Fetch(isa, a.mem, a.pc), a.x, v, a.mem);
      assert M.Step(isa, b) == M.Step(isa, a).(x := M.Step(isa, a).x[0 := v]);
      ZeroInvisible(illegalSize, M.Step(isa, a), v, n - 1);
    }
  }
}
