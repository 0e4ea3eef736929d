/** The debugger a user has in mind: the plain machine, a set of breakpoint addresses, and whether
    the machine stands in front of one it has stopped at. Nothing is patched, cached or buffered. */
module Reference {
  import opened FlatMemory
  import opened BinFormat
  import M = Machine

  /** `retired` counts instructions executed and `traps` the stops in front of a breakpoint; `ops` are
      the opcodes of both, a stop being an ebreak. */
  datatype Debuggee = Debuggee(arch: M.Arch, stopped: bool, retired: nat, traps: nat, ops: multiset<Opcode>)

  /** The opcode of the next instruction. */
  function NextOp(isa: M.InstructionSet, a: M.Arch): Opcode
  {
    M.Fetch(isa, a.mem, a.pc).op
  }

  /** The next instruction is executed. */
  function Retire(isa: M.InstructionSet, d: Debuggee): Debuggee
  {
    d.(arch := M.Step(isa, d.arch), retired := d.retired + 1, ops := d.ops + multiset{NextOp(isa, d.arch)})
  }

  /** One turn of a run: stop in front of a breakpoint, else execute the instruction. */
  function Turn(isa: M.InstructionSet, d: Debuggee, bps: set<Addr>): Debuggee
  {
    if d.arch.pc in bps then d.(stopped := true, traps := d.traps + 1, ops := d.ops + multiset{Ebreak})
    else Retire(isa, d)
  }

  /** At most n turns, up to the first stop. */
  function Turns(isa: M.InstructionSet, d: Debuggee, bps: set<Addr>, n: nat): Debuggee
    decreases n
  {
    if n == 0 || d.stopped then d else Turns(isa, Turn(isa, d, bps), bps, n - 1)
  }

  /** Leaving a breakpoint executes the instruction it is on. */
  function Resume(isa: M.InstructionSet, d: Debuggee): Debuggee
  {
    if d.stopped then Retire(isa, d).(stopped := false) else d
  }

  /** The instruction being left is itself an ebreak of the program. Its handler still finds the
      breakpoint and asks for a halt, which lets one more turn happen. */
  predicate Echoes(isa: M.InstructionSet, d: Debuggee, bps: set<Addr>)
  {
    d.stopped && d.arch.pc in bps && NextOp(isa, d.arch) == Ebreak
  }

  function StepN(isa: M.InstructionSet, d: Debuggee, bps: set<Addr>, n: nat): Debuggee
    requires n > 0
  {
    var left := if d.stopped then n - 1 else n;
    Turns(isa, Resume(isa, d), bps, if Echoes(isa, d, bps) && left > 1 then 1 else left)
  }

  /** After n turns the machine is where n turns of the plain machine would bring it, less the
      turn on which it stopped, and it stops only in front of a breakpoint. */
  lemma {:induction false} TurnsRunPlain(isa: M.InstructionSet, d: Debuggee, bps: set<Addr>, n: nat)
    requires !d.stopped
    ensures var d' := Turns(isa, d, bps, n);
      && d'.retired >= d.retired
      && d'.arch == M.Run(isa, d.arch, d'.retired - d.retired)
      && d'.traps == d.traps + (if d'.stopped then 1 else 0)
      && (d'.stopped ==> d'.arch.pc in bps)
      && (!d'.stopped ==> d'.retired == d.retired + n)
      && (forall k :: 0 <= k < d'.retired - d.retired ==> M.Run(isa, d.arch, k).pc !in bps)
    decreases n
  {
    hide M.Step, NextOp;
    if n > 0 {
      var d1 := Turn(isa, d, bps);
      if !d1.stopped {
        TurnsRunPlain(isa, d1, bps, n - 1);
        var d' := Turns(isa, d1, bps, n - 1);
        forall k | 0 <= k < d'.retired - d.retired
          ensures M.Run(isa, d.arch, k).pc !in bps
        {
          if k > 0 { assert M.Run(isa, d.arch, k) == M.Run(isa, d1.arch, k - 1); }
        }
      }
    }
  }

  /** No more instructions and stops than turns. */
  lemma {:induction false} TurnsCount(isa: M.InstructionSet, d: Debuggee, bps: set<Addr>, n: nat)
    ensures var d' := Turns(isa, d, bps, n); d'.retired + d'.traps <= d.retired + d.traps + n
    decreases n
  {
    hide M.Step, NextOp;
    if n > 0 && !d.stopped { TurnsCount(isa, Turn(isa, d, bps), bps, n - 1); }
  }

  // ---------------------------------------------------------------- trajectories

  /** The opcodes of the next n instructions of the plain machine. */
  function Opcodes(isa: M.InstructionSet, a: M.Arch, n: nat): multiset<Opcode>
    decreases n
  {
    if n == 0 then multiset{} else multiset{NextOp(isa, a)} + Opcodes(isa, M.Step(isa, a), n - 1)
  }

  lemma {:induction false} OpcodesSplit(isa: M.InstructionSet, a: M.Arch, n: nat, k: nat)
    ensures Opcodes(isa, a, n + k) == Opcodes(isa, a, n) + Opcodes(isa, M.Run(isa, a, n), k)
    decreases n
  {
    hide M.Step, NextOp;
    if n > 0 { OpcodesSplit(isa, M.Step(isa, a), n - 1, k); }
  }

  /** As many ebreaks as stops. */
  function Stops(n: nat): multiset<Opcode>
  {
    var none: multiset<Opcode> := multiset{};
    none[Ebreak := n]
  }

  /** The second state is the first one after as many steps of the plain machine as were retired, and
      has counted their opcodes and the stops. */
  predicate OnTrajectory(isa: M.InstructionSet, d: Debuggee, d': Debuggee)
  {
    && d'.retired >= d.retired && d'.traps >= d.traps
    && d'.arch == M.Run(isa, d.arch, d'.retired - d.retired)
    && d'.ops == d.ops + Opcodes(isa, d.arch, d'.retired - d.retired) + Stops(d'.traps - d.traps)
  }

  lemma TrajectoryRuns(isa: M.InstructionSet, d: Debuggee, d': Debuggee)
    requires OnTrajectory(isa, d, d')
    ensures d'.retired >= d.retired && d'.traps >= d.traps && d'.arch == M.Run(isa, d.arch, d'.retired - d.retired)
  {
  }

  lemma TrajectoryJoins(isa: M.InstructionSet, d: Debuggee, d1: Debuggee, d2: Debuggee)
    requires OnTrajectory(isa, d, d1) && OnTrajectory(isa, d1, d2)
    ensures OnTrajectory(isa, d, d2)
  {
    hide M.Step, M.Run, Opcodes;
    M.RunSplit(isa, d.arch, d1.retired - d.retired, d2.retired - d1.retired);
    OpcodesSplit(isa, d.arch, d1.retired - d.retired, d2.retired - d1.retired);
  }

  lemma TurnOnTrajectory(isa: M.InstructionSet, d: Debuggee, bps: set<Addr>)
    ensures OnTrajectory(isa, d, Turn(isa, d, bps)) && OnTrajectory(isa, d, Resume(isa, d))
  {
    hide M.Step, NextOp;
    assert M.Run(isa, d.arch, 1) == M.Run(isa, M.Step(isa, d.arch), 0);
    assert Opcodes(isa, d.arch, 1) == multiset{NextOp(isa, d.arch)} + Opcodes(isa, M.Step(isa, d.arch), 0);
  }

  lemma StaysOnTrajectory(isa: M.InstructionSet, d: Debuggee)
    ensures OnTrajectory(isa, d, d)
  {
  }

  lemma {:induction false} TurnsOnTrajectory(isa: M.InstructionSet, d: Debuggee, bps: set<Addr>, n: nat)
    ensures OnTrajectory(isa, d, Turns(isa, d, bps, n))
    decreases n
  {
    hide OnTrajectory, Turn;
    StaysOnTrajectory(isa, d);
    if n > 0 && !d.stopped {
      TurnOnTrajectory(isa, d, bps);
      TurnsOnTrajectory(isa, Turn(isa, d, bps), bps, n - 1);
      TrajectoryJoins(isa, d, Turn(isa, d, bps), Turns(isa, d, bps, n));
    }
  }

  lemma StepOnTrajectory(isa: M.InstructionSet, d: Debuggee, bps: set<Addr>, n: nat)
    requires n > 0
    ensures OnTrajectory(isa, d, StepN(isa, d, bps, n))
  {
    hide OnTrajectory, Turns, Echoes, Resume;
    TurnOnTrajectory(isa, d, bps);
    var d1 := Resume(isa, d);
    var left := if d.stopped then n - 1 else n;
    TurnsOnTrajectory(isa, d1, bps, if Echoes(isa, d, bps) && left > 1 then 1 else left);
    TrajectoryJoins(isa, d, d1, StepN(isa, d, bps, n));
  }
}
