/** The object RV32ITop, with its register buffers and its identity test, driven through a list of
    debugger commands and compared with the manual. */
module Driving {
  import opened Words
  import opened FlatMemory
  import opened BinFormat
  import opened RegisterNames
  import opened Patching
  import opened Transparency
  import opened Top
  import opened EndToEnd
  import M = Machine
  import C = Controller
  import Ref = Reference
  import S = Scripts

  /** A call of RV32ITop. Free is Run, a worker that a Halt reaches after the given turns at most, and
      its publication. */
  datatype Command =
    | SetBp(a: Addr) | ClearBp(a: Addr) | ClearAllBps
    | Single(num: int, uninit: Word) | Free(turns: nat, uninit: Word)
    | Read(name: string) | Write(name: string, v: int) | Show(address: Word)

  /** What the user has in mind: the reference debugger and the breakpoints set; and the addresses of
      the instructions that the simulator has cached. */
  datatype User = User(d: Ref.Debuggee, bps: set<Addr>, cached: set<Word>)

  function Commanded(isa: M.InstructionSet, u: User, cmd: Command): User
  {
    match cmd
    case SetBp(a) => u.(bps := u.bps + {a}, cached := if a in u.bps then u.cached else Drop(u.cached, a))
    case ClearBp(a) => u.(bps := u.bps - {a}, cached := if a in u.bps then Drop(u.cached, a) else u.cached)
    case ClearAllBps => u.(bps := {}, cached := set w | w in u.cached && w !in u.bps)
    case Single(num, _) =>
      if num > 0 then
        u.(d := Ref.StepN(isa, u.d, u.bps, num), cached := StepCached(isa, u.d, u.bps, u.cached, num))
      else u
    case Free(turns, _) =>
      var d1 := Ref.Resume(isa, u.d);
      u.(d := Ref.Turns(isa, d1, u.bps, turns),
         cached := TurnsCached(isa, d1, u.bps, ResumeCached(u.d, u.bps, u.cached), turns))
    case Write(name, v) =>
      if NumberOf(name).Some? then
        NumberBound(name);
        u.(d := WrittenTo(u.d, NameOf(NumberOf(name).value), v))
      else u
    case Read(_) => u
    case Show(a) => u.(cached := LeftCached(a, u.bps, u.cached))
  }

  /** The register of that name in the user's state. */
  function RegisterShown(u: User, name: string): Word
    requires NumberOf(name).Some?
  {
    NumberBound(name);
    OnlyPc(name);
    if name == PC_NAME then u.d.arch.pc else u.d.arch.x[NumberOf(name).value]
  }

  /** What the command makes the program do. */
  function CommandMove(isa: M.InstructionSet, u: User, cmd: Command): S.Move
  {
    if cmd.Write? && NumberOf(cmd.name).Some? then S.Put(NameOf(NumberOf(cmd.name).value), cmd.v)
    else
      var done := Commanded(isa, u, cmd).d.retired - u.d.retired;
      S.Go(if done >= 0 then done else 0)
  }

  /** Any manager's table with the given breakpoints; only its addresses matter. */
  function Listed(bps: set<Addr>): C.Breakpoints
  {
    map a | a in bps :: C.Breakpoint(0, true)
  }

  /** What is asked of the guest and of the user. */
  ghost predicate Permitted(isa: M.InstructionSet, u: User, cmd: Command)
  {
    match cmd
    case SetBp(a) => a !in u.bps ==> ClearOf(Listed(u.bps), a, 4) && BesideCode(u.cached, a)
    case Single(num, _) =>
      num > 0 ==> SafeFrom(isa, u.d, Listed(u.bps), u.cached, if u.d.stopped then num - 1 else num)
    case Free(turns, _) => SafeFrom(isa, u.d, Listed(u.bps), u.cached, turns)
    case Show(a) => HeadOn(Listed(u.bps), a)
    case ClearBp(_) | ClearAllBps | Read(_) | Write(_, _) => true
  }

  /** The object at rest shows the user's state. */
  ghost predicate Matches(sim: RV32ITop, u: User)
    requires sim.Valid()
    reads sim, sim.state, sim.decoder
  {
    && Tracks(sim.Isa(), sim.View(), u.d)
    && sim.View().bps.Keys == u.bps && CodeOf(sim.View().cache) == u.cached && sim.View().status == C.Halted
  }

  lemma ClearOfKeys(bps: C.Breakpoints, bps': C.Breakpoints, a: Addr, n: int)
    requires bps.Keys == bps'.Keys
    ensures ClearOf(bps, a, n) == ClearOf(bps', a, n)
  {
    assert forall b :: b in bps <==> b in bps.Keys;
    assert forall b :: b in bps' <==> b in bps'.Keys;
  }

  lemma HeadOnKeys(bps: C.Breakpoints, bps': C.Breakpoints, pc: Word)
    requires bps.Keys == bps'.Keys
    ensures HeadOn(bps, pc) == HeadOn(bps', pc)
  {
    assert forall b :: b in bps <==> b in bps.Keys;
    assert forall b :: b in bps' <==> b in bps'.Keys;
  }

  lemma RegularKeys(isa: M.InstructionSet, r: M.Arch, bps: C.Breakpoints, bps': C.Breakpoints, cached: set<Word>)
    requires bps.Keys == bps'.Keys
    ensures Regular(isa, r, bps, cached) == Regular(isa, r, bps', cached)
  {
    hide ClearOf, HeadOn, OutsideCode, M.Fetch;
    var t := isa.touched(M.Fetch(isa, r.mem, r.pc), r.x);
    HeadOnKeys(bps, bps', r.pc);
    if t.Some? { ClearOfKeys(bps, bps', t.value.0, t.value.1); }
  }

  lemma {:induction false} SafeKeys(isa: M.InstructionSet, r: M.Arch, bps: C.Breakpoints, bps': C.Breakpoints,
                                    cached: set<Word>, n: nat)
    requires bps.Keys == bps'.Keys
    ensures Safe(isa, r, bps, cached, n) == Safe(isa, r, bps', cached, n)
    decreases n
  {
    hide Regular, M.Step, Fill;
    if n > 0 {
      RegularKeys(isa, r, bps, bps', cached);
      SafeKeys(isa, M.Step(isa, r), bps, bps', Fill(cached, r.pc), n - 1);
      assert r.pc in bps <==> r.pc in bps.Keys;
      assert r.pc in bps' <==> r.pc in bps'.Keys;
    }
  }

  lemma SafeFromKeys(isa: M.InstructionSet, d: Ref.Debuggee, bps: C.Breakpoints, cached: set<Word>, n: nat)
    ensures SafeFrom(isa, d, Listed(bps.Keys), cached, n) == SafeFrom(isa, d, bps, cached, n)
  {
    hide Regular, Safe, M.Step, M.Fetch, ResumeCached;
    var l := Listed(bps.Keys);
    assert l.Keys == bps.Keys;
    RegularKeys(isa, d.arch, bps, l, cached);
    SafeKeys(isa, Ref.Resume(isa, d).arch, bps, l, ResumeCached(d, bps.Keys, cached), n);
  }

  lemma ListedKeys(bps: C.Breakpoints, a: Addr)
    ensures ClearOf(Listed(bps.Keys), a, 4) == ClearOf(bps, a, 4)
    ensures forall pc: Word :: HeadOn(Listed(bps.Keys), pc) == HeadOn(bps, pc)
  {
    hide ClearOf, HeadOn;
    var l := Listed(bps.Keys);
    assert l.Keys == bps.Keys;
    ClearOfKeys(bps, l, a, 4);
    forall pc: Word ensures HeadOn(l, pc) == HeadOn(bps, pc) { HeadOnKeys(bps, l, pc); }
  }

  // ---------------------------------------------------------------- one command

  /** The status a user gets: a name that does not exist or a breakpoint that is not there is not found,
      and a step count must be positive. */
  function Answer(u: User, cmd: Command): Status
  {
    match cmd
    case Read(name) => if NumberOf(name).Some? then Ok else NotFound
    case Write(name, _) => if NumberOf(name).Some? then Ok else NotFound
    case ClearBp(a) => if a in u.bps then Ok else NotFound
    case Single(num, _) => if num > 0 then Ok else InvalidArgument
    case _ => Ok
  }

  /** Carry out a command. The reply to Read is the register of the user's state, and that to Single the
      instructions executed, a stop included. */
  method Perform(sim: RV32ITop, cmd: Command, ghost u: User)
    returns (status: Status, reply: int)
    requires sim.Valid() && Matches(sim, u) && Permitted(sim.Isa(), u, cmd)
    modifies sim, sim.state, sim.decoder.encoding
    ensures sim.Valid() && Matches(sim, Commanded(sim.Isa(), u, cmd))
    ensures CountsAlike(old(sim.View()), u.d, sim.View(), Commanded(sim.Isa(), u, cmd).d)
    ensures status == Answer(u, cmd)
    ensures cmd.Read? && status == Ok ==> reply == RegisterShown(u, cmd.name)
    ensures var d' := Commanded(sim.Isa(), u, cmd).d;
      cmd.Single? && status == Ok ==> reply == d'.retired + d'.traps - u.d.retired - u.d.traps
  {
    hide RV32ITop.Valid, RV32ITop.View, Tracks, SafeFrom, NumberOf, M.RV32, CodeOf, ClearOf, HeadOn;
    ghost var isa, c := sim.Isa(), sim.View();
    M.Rv32Framed(sim.decoder.illegalSize);
    sim.ControlShown();
    reply := 0;
    match cmd {
      case SetBp(a) =>
        ListedKeys(c.bps, a);
        status := sim.SetSwBreakpoint(a);
        SetBreakpointSimulates(isa, c, u.d, a);
      case ClearBp(a) =>
        status := sim.ClearSwBreakpoint(a);
        ClearBreakpointSimulates(isa, c, u.d, a);
      case ClearAllBps => status := PerformClearAll(sim, u);
      case Single(num, uninit) => status, reply := PerformSteps(sim, num, uninit, u);
      case Free(turns, uninit) => status := PerformRun(sim, turns, uninit, u);
      case Read(name) => status, reply := PerformRead(sim, name, u);
      case Write(name, v) => status := PerformWrite(sim, name, v, u);
      case Show(a) =>
        ListedKeys(c.bps, a);
        var i;
        status, i := sim.GetDisassembly(a);
        DisassembleSimulates(isa, c, u.d, a);
    }
  }

  method PerformClearAll(sim: RV32ITop, ghost u: User) returns (status: Status)
    requires sim.Valid() && Matches(sim, u)
    modifies sim, sim.state
    ensures sim.Valid() && Matches(sim, Commanded(sim.Isa(), u, ClearAllBps))
    ensures SameCounts(old(sim.View()), sim.View()) && status == Ok
  {
    hide RV32ITop.Valid, RV32ITop.View, Tracks, M.RV32, C.ClearAll, CodeOf;
    ghost var isa, c := sim.Isa(), sim.View();
    M.Rv32Framed(sim.decoder.illegalSize);
    sim.ControlShown();
    ghost var order;
    status, order := sim.ClearAllSwBreakpoints();
    ClearAllSimulates(isa, c, u.d, order);
    sim.ControlShown();
    assert sim.View().bps.Keys == {};
    assert forall w :: w in order <==> w in u.bps;
  }

  method PerformSteps(sim: RV32ITop, num: int, uninit: Word, ghost u: User)
    returns (status: Status, count: nat)
    requires sim.Valid() && Matches(sim, u) && Permitted(sim.Isa(), u, Single(num, uninit))
    modifies sim, sim.state, sim.decoder.encoding
    ensures sim.Valid() && Matches(sim, Commanded(sim.Isa(), u, Single(num, uninit)))
    ensures CountsAlike(old(sim.View()), u.d, sim.View(), Commanded(sim.Isa(), u, Single(num, uninit)).d)
    ensures status == if num > 0 then Ok else InvalidArgument
    ensures var d' := Commanded(sim.Isa(), u, Single(num, uninit)).d;
      status == Ok ==> count == d'.retired + d'.traps - u.d.retired - u.d.traps
  {
    hide RV32ITop.Valid, RV32ITop.View, Tracks, SafeFrom, M.RV32, Ref.StepN, C.StepOver, C.Loop, CodeOf, StepCached;
    ghost var isa, c := sim.Isa(), sim.View();
    M.Rv32Framed(sim.decoder.illegalSize);
    if num > 0 {
      SafeFromKeys(isa, u.d, c.bps, u.cached, if u.d.stopped then num - 1 else num);
      StepSimulates(isa, c, u.d, num, uninit);
    }
    status, count := sim.Step(num, uninit);
  }

  method PerformRun(sim: RV32ITop, turns: nat, uninit: Word, ghost u: User)
    returns (status: Status)
    requires sim.Valid() && Matches(sim, u) && Permitted(sim.Isa(), u, Free(turns, uninit))
    modifies sim, sim.state, sim.decoder.encoding
    ensures sim.Valid() && Matches(sim, Commanded(sim.Isa(), u, Free(turns, uninit)))
    ensures CountsAlike(old(sim.View()), u.d, sim.View(), Commanded(sim.Isa(), u, Free(turns, uninit)).d)
    ensures status == Ok
  {
    hide RV32ITop.Valid, RV32ITop.View, Tracks, SafeFrom, M.RV32, Ref.Turns, C.StepOver, C.Work, CodeOf, TurnsCached;
    ghost var isa, c := sim.Isa(), sim.View();
    M.Rv32Framed(sim.decoder.illegalSize);
    sim.ControlShown();
    SafeFromKeys(isa, u.d, c.bps, u.cached, turns);
    RunToHaltSimulates(isa, c, u.d, turns, uninit);
    status := sim.Run();
    sim.Worker(turns, uninit);
  }

  method PerformRead(sim: RV32ITop, name: string, ghost u: User)
    returns (status: Status, reply: Word)
    requires sim.Valid() && Matches(sim, u)
    ensures status == if NumberOf(name).Some? then Ok else NotFound
    ensures status == Ok ==> reply == RegisterShown(u, name)
  {
    hide RV32ITop.Valid, RV32ITop.View, Tracks, NumberOf, M.RV32, CodeOf;
    sim.ControlShown();
    status, reply := sim.ReadRegister(name);
    OnlyPc(name);
    if status == Ok {
      NumberBound(name);
      ReadRegisterSimulates(sim.Isa(), sim.View(), u.d, NameOf(NumberOf(name).value));
    }
  }

  method PerformWrite(sim: RV32ITop, name: string, v: int, ghost u: User)
    returns (status: Status)
    requires sim.Valid() && Matches(sim, u)
    modifies sim, sim.state
    ensures sim.Valid() && Matches(sim, Commanded(sim.Isa(), u, Write(name, v)))
    ensures SameCounts(old(sim.View()), sim.View())
    ensures status == if NumberOf(name).Some? then Ok else NotFound
  {
    hide RV32ITop.Valid, RV32ITop.View, Tracks, NumberOf, M.RV32, CodeOf;
    ghost var isa, c := sim.Isa(), sim.View();
    sim.ControlShown();
    status := sim.WriteRegister(name, v);
    NumberBound(name);
    if status == Ok { WriteRegisterSimulates(isa, c, u.d, NameOf(NumberOf(name).value), v); }
  }

  // ---------------------------------------------------------------- a list of commands

  function AllCommanded(isa: M.InstructionSet, u: User, cmds: seq<Command>): User
    decreases |cmds|
  {
    if cmds == [] then u else AllCommanded(isa, Commanded(isa, u, cmds[0]), cmds[1..])
  }

  ghost predicate AllPermitted(isa: M.InstructionSet, u: User, cmds: seq<Command>)
    decreases |cmds|
  {
    cmds != [] ==> Permitted(isa, u, cmds[0]) && AllPermitted(isa, Commanded(isa, u, cmds[0]), cmds[1..])
  }

  function ScriptOf(isa: M.InstructionSet, u: User, cmds: seq<Command>): seq<S.Move>
    decreases |cmds|
  {
    if cmds == [] then []
    else [CommandMove(isa, u, cmds[0])] + ScriptOf(isa, Commanded(isa, u, cmds[0]), cmds[1..])
  }

  lemma CommandReplays(isa: M.InstructionSet, u: User, cmd: Command)
    ensures S.Leads(isa, u.d, [CommandMove(isa, u, cmd)], Commanded(isa, u, cmd).d)
  {
    hide S.Leads, Ref.OnTrajectory, Ref.Turns, Ref.StepN, Ref.Resume, NumberOf;
    var u' := Commanded(isa, u, cmd);
    if cmd.Write? && NumberOf(cmd.name).Some? {
      NumberBound(cmd.name);
      S.PutLeads(isa, u.d, NameOf(NumberOf(cmd.name).value), cmd.v, u'.d);
    } else {
      Ref.StaysOnTrajectory(isa, u.d);
      if cmd.Single? && cmd.num > 0 { Ref.StepOnTrajectory(isa, u.d, u.bps, cmd.num); }
      if cmd.Free? { RunOnTrajectory(isa, u.d, u.bps, cmd.turns); }
      S.GoLeads(isa, u.d, u'.d);
    }
  }

  lemma RunOnTrajectory(isa: M.InstructionSet, d: Ref.Debuggee, bps: set<Addr>, turns: nat)
    ensures Ref.OnTrajectory(isa, d, Ref.Turns(isa, Ref.Resume(isa, d), bps, turns))
  {
    hide Ref.OnTrajectory, Ref.Turns, Ref.Resume;
    var d1 := Ref.Resume(isa, d);
    Ref.TurnOnTrajectory(isa, d, bps);
    Ref.TurnsOnTrajectory(isa, d1, bps, turns);
    Ref.TrajectoryJoins(isa, d, d1, Ref.Turns(isa, d1, bps, turns));
  }

  lemma {:induction false} CommandsReplay(isa: M.InstructionSet, u: User, cmds: seq<Command>)
    ensures S.Leads(isa, u.d, ScriptOf(isa, u, cmds), AllCommanded(isa, u, cmds).d)
    decreases |cmds|
  {
    hide Commanded, CommandMove, S.Leads;
    if cmds == [] {
      S.LeadsNowhere(isa, u.d);
    } else {
      var u1 := Commanded(isa, u, cmds[0]);
      CommandReplays(isa, u, cmds[0]);
      CommandsReplay(isa, u1, cmds[1..]);
      S.LeadsOn(isa, u.d, [CommandMove(isa, u, cmds[0])], u1.d, ScriptOf(isa, u1, cmds[1..]),
                AllCommanded(isa, u, cmds).d);
    }
  }

  /** Drive the object through any list of commands. It ends in the user's state, and shows the state
      in which the manual leaves the script of the session, whose instructions are those executed less
      the traps. */
  method Drive(sim: RV32ITop, cmds: seq<Command>, ghost u: User)
    requires sim.Valid() && Matches(sim, u) && AllPermitted(sim.Isa(), u, cmds)
    modifies sim, sim.state, sim.decoder.encoding
    ensures sim.Valid() && Matches(sim, AllCommanded(sim.Isa(), u, cmds))
    ensures S.Length(ScriptOf(sim.Isa(), u, cmds))
            == sim.View().numInstructions - old(sim.View()).numInstructions
               - (AllCommanded(sim.Isa(), u, cmds).d.traps - u.d.traps)
    ensures forall op :: C.CountOf(sim.View(), op) == C.CountOf(old(sim.View()), op)
              + S.Opcodes(sim.Isa(), u.d.arch, ScriptOf(sim.Isa(), u, cmds))[op]
              + if op == Ebreak then AllCommanded(sim.Isa(), u, cmds).d.traps - u.d.traps else 0
    ensures S.ByTheBook(u.d.arch, ScriptOf(sim.Isa(), u, cmds)) ==>
              ShowsManual(sim.View(), S.Play(u.d.arch, ScriptOf(sim.Isa(), u, cmds)))
  {
    hide RV32ITop.Valid, RV32ITop.View, Tracks, Commanded, Permitted, M.RV32, S.ByTheBook, S.Play, ScriptOf;
    ghost var isa, c, cur, all := sim.Isa(), sim.View(), u, AllCommanded(sim.Isa(), u, cmds);
    var k := 0;
    while k < |cmds|
      invariant k <= |cmds| && sim.Valid() && Matches(sim, cur) && AllPermitted(isa, cur, cmds[k..])
      invariant AllCommanded(isa, cur, cmds[k..]) == all
      invariant CountsAlike(c, u.d, sim.View(), cur.d)
    {
      assert cmds[k..][0] == cmds[k] && cmds[k..][1..] == cmds[k + 1..];
      var _, _ := Perform(sim, cmds[k], cur);
      cur := Commanded(isa, cur, cmds[k]);
      k := k + 1;
    }
    CommandsReplay(isa, u, cmds);
    ghost var script := ScriptOf(isa, u, cmds);
    if S.ByTheBook(u.d.arch, script) {
      S.PlayRefines(sim.decoder.illegalSize, u.d.arch, u.d.arch, script);
      TracksManual(isa, sim.View(), all.d, S.Play(u.d.arch, script));
    }
  }

  /** A new simulator with an image put into its memory, as a loader does, is ready to be driven. */
  method Boot(illegalSize: Word, uninit: Word, image: Memory) returns (sim: RV32ITop)
    ensures fresh(sim) && fresh(sim.state) && fresh(sim.decoder) && fresh(sim.decoder.encoding)
    ensures sim.Valid() && sim.decoder.illegalSize == illegalSize && sim.state.mem == image
    ensures Matches(sim, User(Start(sim.View()), {}, {}))
    ensures sim.View().pcReg == 0 && forall r :: 0 <= r < 32 ==> sim.View().x[r] == 0
    ensures sim.View().numInstructions == 0 && forall op :: C.CountOf(sim.View(), op) == 0
  {
    hide Tracks, M.RV32;
    sim := new RV32ITop(illegalSize, uninit);
    sim.state.mem := image;
    FreshTracks(sim.Isa(), sim.View());
  }
}
