/** The instruction counters, over whole sessions. */
module Counters {
  import opened Words
  import opened FlatMemory
  import opened BinFormat
  import opened Controller
  import opened Interleaving
  import M = Machine

  function Sum(counts: seq<nat>): nat
  {
    if counts == [] then 0 else counts[0] + Sum(counts[1..])
  }

  lemma {:induction false} SumBump(counts: seq<nat>, k: nat)
    requires k < |counts|
    ensures Sum(counts[k := counts[k] + 1]) == Sum(counts) + 1
  {
    var bumped := counts[k := counts[k] + 1];
    if k == 0 {
      assert bumped[1..] == counts[1..];
    } else {
      SumBump(counts[1..], k - 1);
      assert bumped[1..] == counts[1..][k - 1 := counts[1..][k - 1] + 1];
    }
  }

  /** num_instructions is the sum of the opcode counters. */
  predicate Balanced(c: Core)
  {
    c.numInstructions == Sum(c.opcodeCount)
  }

  /** A new core has counted nothing. */
  lemma {:induction false} NothingCounted(u: Word, op: Opcode)
    ensures CountOf(Initial(u), op) == 0 && Initial(u).numInstructions == 0 && Balanced(Initial(u))
  {
    ZeroSum(ZeroCounts());
  }

  lemma {:induction false} ZeroSum(counts: seq<nat>)
    requires forall k :: 0 <= k < |counts| ==> counts[k] == 0
    ensures Sum(counts) == 0
  {
    if counts != [] { ZeroSum(counts[1..]); }
  }

  lemma TallyBalanced(c: Core, op: Opcode)
    requires Balanced(c)
    ensures Balanced(Tally(c, op))
  {
    SumBump(c.opcodeCount, OpcodeIndex(op));
  }

  lemma TurnBalanced(isa: M.InstructionSet, c: Core, next: Word)
    requires Balanced(c)
    ensures Balanced(Turn(isa, c, next).core)
  {
    hide Tally;
    var i := Cached(isa, c.cache, c.mem, next);
    TallyBalanced(Executed(isa, c.(cache := Filled(isa, c.cache, c.mem, next)), i), i.op);
  }

  lemma StepOverBalanced(isa: M.InstructionSet, c: Core)
    requires Balanced(c)
    ensures Balanced(StepOver(isa, c))
  {
    hide Tally;
    var c1 := DisableBreakpoint(c, c.previousPc);
    var i := Cached(isa, c1.cache, c1.mem, c.previousPc);
    TallyBalanced(Executed(isa, c1.(cache := Filled(isa, c1.cache, c1.mem, c.previousPc)), i), i.op);
  }

  lemma {:induction false} LoopBalanced(isa: M.InstructionSet, c: Core, next: Word, last: Word, n: nat)
    requires Balanced(c)
    ensures Balanced(Loop(isa, c, next, last, n).core)
    decreases n
  {
    hide Turn, Balanced;
    if n > 0 {
      var p := Turn(isa, c, next);
      TurnBalanced(isa, c, next);
      LoopBalanced(isa, p.core, p.next, next, n - 1);
    }
  }

  lemma ClearAllBalanced(c: Core, order: seq<Addr>)
    requires Balanced(c)
    ensures Balanced(ClearAll(c, order))
    decreases |order|
  {
    if order != [] { ClearAllBalanced(ClearBreakpoint(c, order[0]), order[1..]); }
  }

  lemma StepBalanced(isa: M.InstructionSet, c: Core, num: int, uninit: Word)
    requires Balanced(c)
    ensures var r := Step(isa, c, num, uninit); r.Stepped? ==> Balanced(r.core)
  {
    hide StepOver, Loop;
    var c0 := c.(status := SingleStep, halted := false);
    StepOverBalanced(isa, c0);
    if num > 0 {
      var c1 := if Pending(c) then StepOver(isa, c0) else c0;
      LoopBalanced(isa, c1, c1.pcReg, uninit, num - if Pending(c) then 1 else 0);
    }
  }

  lemma CommandBalanced(isa: M.InstructionSet, s: Sys, e: Event)
    requires Balanced(s.core) && !IsWorkerEvent(e)
    ensures Balanced(ControllerNext(isa, s, e).core)
  {
    hide StepOver, Step, ClearAll, Store, Load, Invalidate, Cached, Filled;
    match e
    case StepCmd(num, uninit) => StepBalanced(isa, s.core, num, uninit);
    case RunCmd(_) => StepOverBalanced(isa, s.core);
    case ClearBps(order) => ClearAllBalanced(s.core, order);
    case _ =>
  }

  lemma WorkerBalanced(isa: M.InstructionSet, s: Sys, e: Event)
    requires Balanced(s.core) && IsWorkerEvent(e)
    ensures Balanced(WorkerNext(isa, s, e).core)
  {
    hide Turn, Traps;
    if e.WorkerExecutes? && At(s, e.k, Executing) { TurnBalanced(isa, s.core, s.workers[e.k].next); }
  }

  /** The counters agree after every step of every session. */
  lemma NextBalanced(isa: M.InstructionSet, s: Sys, e: Event)
    requires Balanced(s.core)
    ensures Balanced(Next(isa, s, e).core)
  {
    hide Balanced, WorkerNext, ControllerNext;
    if IsWorkerEvent(e) { WorkerBalanced(isa, s, e); } else { CommandBalanced(isa, s, e); }
  }

  lemma {:induction false} SessionBalanced(isa: M.InstructionSet, s: Sys, es: seq<Event>)
    requires Balanced(s.core)
    ensures Balanced(After(isa, s, es).core)
    decreases |es|
  {
    hide Next, Balanced;
    if es != [] {
      NextBalanced(isa, s, es[0]);
      SessionBalanced(isa, Next(isa, s, es[0]), es[1..]);
    }
  }
}
