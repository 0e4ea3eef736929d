/** The breakpoints a user has set, over whole sessions. */
module UserBreakpoints {
  import opened Words
  import opened FlatMemory
  import opened BinFormat
  import opened Controller
  import opened Transparency
  import opened Interleaving
  import M = Machine

  /** The breakpoints that a user has, who sets and clears them between runs. */
  function UserNext(s: Sys, e: Event, bps: set<Addr>): set<Addr>
  {
    if !Admitted(s) then bps
    else match e
         case SetBp(a) => bps + {a}
         case ClearBp(a) => bps - {a}
         case ClearBps(order) => bps - (set a | a in order)
         case _ => bps
  }

  lemma {:induction false} ClearAllKeys(c: Core, order: seq<Addr>)
    ensures ClearAll(c, order).bps.Keys == c.bps.Keys - (set a | a in order)
    decreases |order|
  {
    hide ClearBreakpoint;
    if order != [] {
      ClearedBreakpoints(c, order[0]);
      ClearAllKeys(ClearBreakpoint(c, order[0]), order[1..]);
      assert order == [order[0]] + order[1..];
    }
  }

  lemma PatchedKeys(c: Core, a: Addr)
    ensures SetBreakpoint(c, a).bps.Keys == c.bps.Keys + {a}
    ensures ClearBreakpoint(c, a).bps.Keys == c.bps.Keys - {a}
    ensures DisableBreakpoint(c, a).bps.Keys == EnableBreakpoint(c, a).bps.Keys == c.bps.Keys
  {
    hide Store, Load, Invalidate;
    ClearedBreakpoints(c, a);
  }

  lemma StepOverKeys(isa: M.InstructionSet, c: Core)
    ensures StepOver(isa, c).bps.Keys == c.bps.Keys
  {
    hide DisableBreakpoint, EnableBreakpoint, Cached, Filled, OpcodeIndex;
    var a := c.previousPc;
    var c1 := DisableBreakpoint(c, a);
    var i := Cached(isa, c1.cache, c1.mem, a);
    PatchedKeys(c, a);
    PatchedKeys(Tally(Executed(isa, c1.(cache := Filled(isa, c1.cache, c1.mem, a)), i), i.op), a);
  }

  lemma {:induction false} LoopKeys(isa: M.InstructionSet, c: Core, next: Word, last: Word, n: nat)
    ensures Loop(isa, c, next, last, n).core.bps == c.bps
    decreases n
  {
    hide Turn;
    if n > 0 {
      TurnFrame(isa, c, next);
      var p := Turn(isa, c, next);
      if !p.core.halted { LoopKeys(isa, p.core, p.next, next, n - 1); }
    }
  }

  lemma StepKeys(isa: M.InstructionSet, c: Core, num: int, u: Word)
    ensures var r := Step(isa, c, num, u); r.Stepped? ==> r.core.bps.Keys == c.bps.Keys
  {
    hide StepOver, Loop;
    if num > 0 {
      var c0 := c.(status := SingleStep, halted := false);
      var c1 := if Pending(c) then StepOver(isa, c0) else c0;
      StepOverKeys(isa, c0);
      LoopKeys(isa, c1, c1.pcReg, u, num - if Pending(c) then 1 else 0);
    }
  }

  lemma DisassembledKeys(isa: M.InstructionSet, c: Core, a: Word)
    ensures Disassembled(isa, c, a).0.bps.Keys == c.bps.Keys
  {
    hide DisableBreakpoint, EnableBreakpoint, Cached, Filled;
    var c1 := DisableBreakpoint(c, a);
    PatchedKeys(c, a);
    PatchedKeys(c1.(cache := Filled(isa, c1.cache, c1.mem, a)), a);
  }

  lemma BeginKeys(isa: M.InstructionSet, c: Core)
    ensures Begin(isa, c).bps.Keys == c.bps.Keys
  {
    hide StepOver;
    StepOverKeys(isa, c);
  }

  /** No event but the user's own commands sets or clears a breakpoint, and these always do. */
  lemma NextKeys(isa: M.InstructionSet, s: Sys, e: Event)
    ensures Next(isa, s, e).core.bps.Keys == UserNext(s, e, s.core.bps.Keys)
  {
    if IsWorkerEvent(e) {
      hide Turn, Traps, ControllerNext;
      if e.WorkerExecutes? && At(s, e.k, Executing) { TurnFrame(isa, s.core, s.workers[e.k].next); }
    } else {
      hide SetBreakpoint, ClearBreakpoint, ClearAll, Step, Begin, Disassembled, WorkerNext;
      match e
      case SetBp(a) => PatchedKeys(s.core, a);
      case ClearBp(a) => PatchedKeys(s.core, a);
      case ClearBps(order) => ClearAllKeys(s.core, order);
      case StepCmd(num, u) => StepKeys(isa, s.core, num, u);
      case RunCmd(_) => BeginKeys(isa, s.core);
      case Disassemble(a) => DisassembledKeys(isa, s.core, a);
      case _ =>
    }
  }

  function UserAfter(isa: M.InstructionSet, s: Sys, es: seq<Event>, bps: set<Addr>): set<Addr>
    decreases |es|
  {
    if es == [] then bps else UserAfter(isa, Next(isa, s, es[0]), es[1..], UserNext(s, es[0], bps))
  }

  /** The breakpoints listed after any session are those the user has set and not cleared. */
  lemma {:induction false} SessionBreakpoints(isa: M.InstructionSet, s: Sys, es: seq<Event>)
    ensures After(isa, s, es).core.bps.Keys == UserAfter(isa, s, es, s.core.bps.Keys)
    decreases |es|
  {
    hide Next, UserNext;
    if es != [] {
      NextKeys(isa, s, es[0]);
      SessionBreakpoints(isa, Next(isa, s, es[0]), es[1..]);
    }
  }
}
