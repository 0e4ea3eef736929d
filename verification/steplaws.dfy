/** How calls of Step and Run relate to each other. */
module StepLaws {
  import opened Words
  import opened FlatMemory
  import opened BinFormat
  import opened Isa
  import opened Semantics
  import opened Controller
  import M = Machine

  /** The two cores differ at most in the fields the loop neither reads nor, before it is over,
      writes for good: previous_pc_, the pc register, the reason and the status. */
  predicate LoopTwins(c: Core, c': Core)
  {
    c' == c.(previousPc := c'.previousPc, pcReg := c'.pcReg, reason := c'.reason, status := c'.status)
  }

  lemma TurnOfTwins(isa: M.InstructionSet, c: Core, c': Core, next: Word)
    requires LoopTwins(c, c')
    ensures var p, p' := Turn(isa, c, next), Turn(isa, c', next);
      && p.next == p'.next && LoopTwins(p.core, p'.core)
      && p.core.previousPc == c.previousPc && p.core.status == c.status
      && (p.core.halted && !c.halted ==> p.core.reason == p'.core.reason == SoftwareBreakpoint)
      && (!p.core.halted ==> p.core.reason == c.reason && p'.core.reason == c'.reason)
  {
  }

  lemma {:induction false} LoopOfTwins(isa: M.InstructionSet, c: Core, c': Core, next: Word, last: Word, last': Word,
                                       n: nat)
    requires LoopTwins(c, c') && !c.halted
    ensures var e, e' := Loop(isa, c, next, last, n), Loop(isa, c', next, last', n);
      && e.next == e'.next && e.count == e'.count && LoopTwins(e.core, e'.core)
      && (n > 0 || last == last' ==> e.last == e'.last)
      && e.core.status == c.status
      && (e.core.halted ==> e.core.reason == e'.core.reason == SoftwareBreakpoint)
      && (!e.core.halted ==> e.core.reason == c.reason && e'.core.reason == c'.reason && e.count == n)
    decreases n
  {
    hide Turn;
    if n > 0 {
      TurnOfTwins(isa, c, c', next);
      var p, p' := Turn(isa, c, next), Turn(isa, c', next);
      if !p.core.halted { LoopOfTwins(isa, p.core, p'.core, p.next, next, next, n - 1); }
    }
  }

  /** A loop that made its n turns goes on where it left off. */
  lemma {:induction false} LoopSplit(isa: M.InstructionSet, c: Core, next: Word, last: Word, n: nat, k: nat)
    ensures var e := Loop(isa, c, next, last, n);
      !e.core.halted ==>
        var e' := Loop(isa, e.core, e.next, e.last, k);
        Loop(isa, c, next, last, n + k) == e'.(count := n + e'.count) && e.count == n
    decreases n
  {
    hide Turn;
    if n > 0 {
      var p := Turn(isa, c, next);
      if !p.core.halted { LoopSplit(isa, p.core, p.next, next, n - 1, k); }
    }
  }

  /** A loop that stopped with halted_ set would have stopped there with more turns to go. */
  lemma {:induction false} LoopStops(isa: M.InstructionSet, c: Core, next: Word, last: Word, n: nat, k: nat)
    requires n > 0 && Loop(isa, c, next, last, n).core.halted
    ensures Loop(isa, c, next, last, n + k) == Loop(isa, c, next, last, n)
    decreases n
  {
    hide Turn;
    var p := Turn(isa, c, next);
    if !p.core.halted && n > 1 { LoopStops(isa, p.core, p.next, next, n - 1, k); }
  }

  // ---------------------------------------------------------------- Step after Step

  function Done(c: Core): nat
  {
    if Pending(c) then 1 else 0
  }

  /** The core at the start of Step's loop. */
  function AtLoop(isa: M.InstructionSet, c: Core): Core
  {
    var c0 := c.(status := SingleStep, halted := false);
    if Pending(c) then StepOver(isa, c0) else c0
  }

  lemma AtLoopReason(isa: M.InstructionSet, c: Core)
    ensures !Pending(AtLoop(isa, c)) && AtLoop(isa, c).status == SingleStep
    ensures !Pending(c) ==> !AtLoop(isa, c).halted
  {
  }

  /** With no halt, Step(n) and then Step(m) is Step(n + m): the same core, the same count, whatever
      the uninitialised locals held. */
  lemma StepComposes(isa: M.InstructionSet, c: Core, n: int, m: int, u: Word, u': Word, u'': Word)
    requires n > 0 && m > 0 && c.status == Halted
    requires !Step(isa, c, n, u).core.halted
    ensures var first := Step(isa, c, n, u);
      var second := Step(isa, first.core, m, u');
      first.count == n
      && second.Stepped?
      && Step(isa, c, n + m, u'') == Stepped(second.core, n + second.count)
  {
    hide StepOver, Turn;
    AtLoopReason(isa, c);
    var c1 := AtLoop(isa, c);
    var left := n - Done(c);
    var e := Loop(isa, c1, c1.pcReg, u, left);
    var first := Step(isa, c, n, u);
    LoopNotHalted(isa, c1, c1.pcReg, u, left);
    LoopOfTwins(isa, c1, c1, c1.pcReg, u, u'', left);
    LoopOfTwins(isa, c1, c1, c1.pcReg, u, u'', left + m);
    LoopSplit(isa, c1, c1.pcReg, u, left, m);
    var c2 := first.core.(status := SingleStep, halted := false);
    assert LoopTwins(e.core, c2);
    LoopOfTwins(isa, e.core, c2, e.next, e.last, u', m);
    hide Loop;
    assert n + m - Done(c) == left + m;
  }

  lemma {:induction false} LoopNotHalted(isa: M.InstructionSet, c: Core, next: Word, last: Word, n: nat)
    requires !Loop(isa, c, next, last, n).core.halted
    ensures !c.halted
    decreases n
  {
    hide Turn;
    if n > 0 {
      if c.halted { TurnHaltMonotone(isa, c, next); }
      var p := Turn(isa, c, next);
      if !p.core.halted { LoopNotHalted(isa, p.core, p.next, next, n - 1); }
    }
  }

  lemma TurnHaltMonotone(isa: M.InstructionSet, c: Core, next: Word)
    requires c.halted
    ensures Turn(isa, c, next).core.halted
  {
  }

  /** A Step that was halted is final: asking for more steps changes nothing, except in the one case
      where the halt came from the instruction stepped over and the loop had no turn to notice it. */
  lemma HaltedStepIsFinal(isa: M.InstructionSet, c: Core, n: int, m: int, u: Word)
    requires n > 0 && m > 0 && c.status == Halted
    requires Step(isa, c, n, u).core.halted
    ensures Step(isa, c, n + m, u) == Step(isa, c, n, u) <==> !(Pending(c) && n == 1)
  {
    hide StepOver, Turn;
    AtLoopReason(isa, c);
    var c1 := AtLoop(isa, c);
    var left := n - Done(c);
    if left > 0 {
      LoopStops(isa, c1, c1.pcReg, u, left, m);
      assert n + m - Done(c) == left + m;
    } else {
      LoopCounts(isa, c1, c1.pcReg, u, m);
    }
  }

  lemma {:induction false} LoopCounts(isa: M.InstructionSet, c: Core, next: Word, last: Word, n: nat)
    requires n > 0
    ensures Loop(isa, c, next, last, n).count > 0
  {
    hide Turn;
  }

  /** The uninitialised local pc of Step reaches previous_pc_ only when the loop made no turn, and
      previous_pc_ is then not read: the core is not left at a breakpoint. */
  lemma UninitialisedNeverRead(isa: M.InstructionSet, c: Core, n: int, u: Word, u': Word)
    requires n > 0 && c.status == Halted
    ensures var s, s' := Step(isa, c, n, u), Step(isa, c, n, u');
      && s.count == s'.count
      && s'.core == s.core.(previousPc := s'.core.previousPc)
      && (Pending(s.core) ==> s == s')
      && (!(Pending(c) && n == 1) ==> s == s')
  {
    hide StepOver, Turn;
    AtLoopReason(isa, c);
    LastForgotten(isa, AtLoop(isa, c), AtLoop(isa, c).pcReg, u, u', n - Done(c));
  }

  lemma LastForgotten(isa: M.InstructionSet, c: Core, next: Word, u: Word, u': Word, n: nat)
    ensures n > 0 ==> Loop(isa, c, next, u, n) == Loop(isa, c, next, u', n)
    ensures n == 0 ==> Loop(isa, c, next, u', 0) == Loop(isa, c, next, u, 0).(last := u')
  {
    hide Turn;
  }

  lemma {:induction false} LoopReason(isa: M.InstructionSet, c: Core, next: Word, last: Word, n: nat)
    ensures var e := Loop(isa, c, next, last, n);
      && (e.core.reason == c.reason || (e.core.halted && e.core.reason == SoftwareBreakpoint))
      && (c.halted ==> e.core.halted)
      && (e.core.halted && !c.halted ==> e.core.reason == SoftwareBreakpoint)
    decreases n
  {
    hide Turn;
    if n > 0 {
      TurnReason(isa, c, next);
      var p := Turn(isa, c, next);
      if !p.core.halted { LoopReason(isa, p.core, p.next, next, n - 1); }
    }
  }

  lemma TurnReason(isa: M.InstructionSet, c: Core, next: Word)
    ensures var c' := Turn(isa, c, next).core;
      (c'.reason == c.reason && c'.halted == c.halted) || (c'.reason == SoftwareBreakpoint && c'.halted)
  {
    hide Cached, Filled, OpcodeIndex;
  }

  /** The reason a user finds: a breakpoint exactly where one was met, else none after Step and the
      user's request after Run. */
  lemma ReasonsFound(isa: M.InstructionSet, c: Core, num: int, turns: nat, u: Word)
    requires num > 0 && c.status == Halted
    ensures var s, r := Step(isa, c, num, u).core, RunToHalt(isa, c, turns, u);
      && s.reason == (if Pending(s) then SoftwareBreakpoint else NoReason)
      && r.reason == (if Pending(r) then SoftwareBreakpoint else UserRequest)
      && (Pending(s) ==> s.halted) && r.halted
  {
    hide StepOver, Loop;
    AtLoopReason(isa, c);
    LoopReason(isa, AtLoop(isa, c), AtLoop(isa, c).pcReg, u, num - Done(c));
    LoopReason(isa, Launch(isa, c), Launch(isa, c).pcReg, u, turns);
    OverClearsReason(isa, c.(status := SingleStep, halted := false));
  }

  lemma OverClearsReason(isa: M.InstructionSet, c: Core)
    ensures StepOver(isa, c).reason == NoReason
  {
    hide Executed, Cached, Filled, DisableBreakpoint, EnableBreakpoint;
  }

  // ---------------------------------------------------------------- Run and Step

  /** Leaving a breakpoint sets halted_ only when the program has an ebreak of its own under it;
      Step's loop then stops early, while Run clears the flag. */
  predicate Echo(isa: M.InstructionSet, c: Core)
  {
    AtLoop(isa, c).halted
  }

  /** Step's loop and the worker of Run, written separately, leave the same core: a run that a
      breakpoint ends is the Step with as many turns, and a run that a Halt ends differs from it
      only in saying so. */
  lemma RunAgreesWithStep(isa: M.InstructionSet, c: Core, turns: nat, u: Word)
    requires c.status == Halted && turns + Done(c) > 0 && !Echo(isa, c)
    ensures var s := Step(isa, c, turns + Done(c), u);
      RunToHalt(isa, c, turns, u)
      == if s.core.halted then s.core else s.core.(reason := UserRequest, halted := true)
  {
    hide StepOver, Turn;
    AtLoopReason(isa, c);
    var c1, c2 := AtLoop(isa, c), Launch(isa, c);
    StepOverControl(isa, c);
    assert LoopTwins(c1, c2);
    LoopOfTwins(isa, c1, c2, c1.pcReg, u, u, turns);
    hide Loop;
    assert turns + Done(c) - Done(c) == turns;
  }

  /** The two cores differ at most in the status and halted_. */
  predicate ControlTwins(c: Core, c': Core)
  {
    c' == c.(status := c'.status, halted := c'.halted)
  }

  lemma ExecutedControl(isa: M.InstructionSet, c: Core, c': Core, i: Inst)
    requires ControlTwins(c, c')
    ensures ControlTwins(Executed(isa, c, i), Executed(isa, c', i)) && Executed(isa, c', i).status == c'.status
  {
    hide Store, StoreTo, WriteReg;
  }

  lemma PatchControl(c: Core, c': Core, a: Addr)
    requires ControlTwins(c, c')
    ensures ControlTwins(DisableBreakpoint(c, a), DisableBreakpoint(c', a))
    ensures ControlTwins(EnableBreakpoint(c, a), EnableBreakpoint(c', a))
    ensures DisableBreakpoint(c', a).status == c'.status && EnableBreakpoint(c', a).status == c'.status
  {
    hide Store, LoadWord, Invalidate;
  }

  /** Stepping over does not look at the status or at halted_. */
  lemma StepOverControl(isa: M.InstructionSet, c: Core)
    ensures var d := StepOver(isa, c.(status := SingleStep, halted := false));
      StepOver(isa, c) == d.(status := c.status, halted := StepOver(isa, c).halted)
  {
    hide DisableBreakpoint, EnableBreakpoint, Executed, Cached, Filled, OpcodeIndex;
    var c', a := c.(status := SingleStep, halted := false), c.previousPc;
    PatchControl(c, c', a);
    PatchControl(c', c, a);
    var c1, c1' := DisableBreakpoint(c, a), DisableBreakpoint(c', a);
    var i := Cached(isa, c1.cache, c1.mem, a);
    var c2 := c1.(cache := Filled(isa, c1.cache, c1.mem, a));
    var c2' := c1'.(cache := Filled(isa, c1.cache, c1.mem, a));
    ExecutedControl(isa, c2', c2, i);
    PatchControl(Tally(Executed(isa, c2', i), i.op), Tally(Executed(isa, c2, i), i.op), a);
  }

  lemma TurnControl(isa: M.InstructionSet, c: Core, c': Core, next: Word)
    requires ControlTwins(c, c')
    ensures var p, p' := Turn(isa, c, next), Turn(isa, c', next);
      ControlTwins(p.core, p'.core) && p.next == p'.next && p.core.reason == p'.core.reason
  {
    hide Executed, Cached, Filled, OpcodeIndex;
    var i := Cached(isa, c.cache, c.mem, next);
    var cache := Filled(isa, c.cache, c.mem, next);
    ExecutedControl(isa, c.(cache := cache), c'.(cache := cache), i);
  }

  lemma {:induction false} LoopTallies(isa: M.InstructionSet, c: Core, next: Word, last: Word, n: nat)
    ensures var e := Loop(isa, c, next, last, n); e.core.numInstructions == c.numInstructions + e.count
    decreases n
  {
    hide Turn;
    if n > 0 {
      TurnTallies(isa, c, next);
      var p := Turn(isa, c, next);
      if !p.core.halted { LoopTallies(isa, p.core, p.next, next, n - 1); }
    }
  }

  lemma TurnTallies(isa: M.InstructionSet, c: Core, next: Word)
    ensures Turn(isa, c, next).core.numInstructions == c.numInstructions + 1
  {
    hide Store, StoreTo, WriteReg;
  }

  /** The same but for what they say about the halt. */
  predicate Alike(c: Core, c': Core)
  {
    c' == c.(reason := c'.reason, halted := c'.halted)
  }

  /** The turns the worker of Run makes before it stops. */
  function WorkerTurns(isa: M.InstructionSet, c: Core, turns: nat, u: Word): nat
  {
    Loop(isa, Launch(isa, c), Launch(isa, c).pcReg, u, turns).count
  }

  /** Run and the matching Step leave the same registers, memory, pc, cache and counters exactly
      when Step's loop is not stopped early by an ebreak under the breakpoint it left. */
  lemma RunMatchesStep(isa: M.InstructionSet, c: Core, turns: nat, u: Word)
    requires c.status == Halted && turns + Done(c) > 0
    ensures Alike(Step(isa, c, turns + Done(c), u).core, RunToHalt(isa, c, turns, u))
            <==> !(Echo(isa, c) && WorkerTurns(isa, c, turns, u) > 1)
  {
    hide StepOver, Turn;
    if !Echo(isa, c) {
      RunAgreesWithStep(isa, c, turns, u);
    } else {
      EchoedRun(isa, c, turns, u);
    }
  }

  lemma EchoedRun(isa: M.InstructionSet, c: Core, turns: nat, u: Word)
    requires c.status == Halted && Echo(isa, c)
    ensures Alike(Step(isa, c, turns + Done(c), u).core, RunToHalt(isa, c, turns, u))
            <==> WorkerTurns(isa, c, turns, u) <= 1
  {
    hide StepOver, Turn;
    AtLoopReason(isa, c);
    var c1, c2 := AtLoop(isa, c), Launch(isa, c);
    StepOverControl(isa, c);
    assert ControlTwins(c1, c2);
    LoopTallies(isa, c1, c1.pcReg, u, turns);
    LoopTallies(isa, c2, c1.pcReg, u, turns);
    if turns > 0 {
      TurnControl(isa, c1, c2, c1.pcReg);
      TurnHaltMonotone(isa, c1, c1.pcReg);
      var p2 := Turn(isa, c2, c1.pcReg);
      if !p2.core.halted && turns > 1 { LoopCounts(isa, p2.core, p2.next, c1.pcReg, turns - 1); }
    }
    assert turns + Done(c) - Done(c) == turns;
  }
}
