/** Wait: it blocks exactly while a run is going on, and comes back only once its end is published. */
module Waits {
  import opened Words
  import opened Controller
  import opened Interleaving
  import opened HaltRaces
  import M = Machine

  /** Wait on a simulator that is not running returns at once and drops the old notification; on one
      that is running it blocks. */
  lemma WaitBlocksExactly(isa: M.InstructionSet, s: Sys)
    requires ThreadSafe(s) && s.control == Idle
    ensures var s' := Next(isa, s, WaitCmd);
      s' == (if s.core.status == Running then s.(control := Waiting) else s.(runHalted := None))
  {
    hide Turn, Step, Begin, SetBreakpoint, ClearBreakpoint, ClearAll, Disassembled, WorkerNext;
  }

  /** A blocked Wait can return exactly when the run is over. It leaves no worker and nothing to notify. */
  lemma WaitReturnsExactly(isa: M.InstructionSet, s: Sys)
    requires ThreadSafe(s) && s.control == Waiting
    ensures var s' := Next(isa, s, WaitReturns);
      && (s'.control == Idle <==> s.core.status == Halted)
      && s' == (if s.core.status == Halted then s.(control := Idle, runHalted := None) else s)
      && (s'.control == Idle ==> s'.workers == [])
  {
    hide Turn, Step, Begin, SetBreakpoint, ClearBreakpoint, ClearAll, Disassembled, WorkerNext;
  }

  /** Nothing but its return ends a Wait, and while it blocks nobody starts another run. */
  lemma WaitHolds(isa: M.InstructionSet, s: Sys, e: Event)
    requires ThreadSafe(s) && s.control == Waiting && e != WaitReturns
    ensures var s' := Next(isa, s, e);
      s'.control == Waiting && (s.core.status == Halted ==> s'.core.status == Halted)
  {
    hide Turn, Traps, Loop, StepOver, Begin, SetBreakpoint, ClearBreakpoint, ClearAll, Disassembled;
    if e.WorkerExecutes? && At(s, e.k, Executing) { TurnKeepsStatus(isa, s.core, s.workers[e.k].next); }
  }

  lemma {:induction false} WaitHoldsOn(isa: M.InstructionSet, s: Sys, es: seq<Event>)
    requires ThreadSafe(s) && s.control == Waiting && WaitReturns !in es
    ensures var t := After(isa, s, es);
      ThreadSafe(t) && t.control == Waiting && (t.core.status == Halted <==> Published(isa, s, es))
    decreases |es|
  {
    hide Next, ThreadSafe;
    if es != [] {
      NextThreadSafe(isa, s, es[0]);
      WaitHolds(isa, s, es[0]);
      WaitHoldsOn(isa, Next(isa, s, es[0]), es[1..]);
      PublishedStays(isa, s, es);
    }
  }

  /** While a Wait blocks, the end of a run once published stays published. */
  lemma {:induction false} PublishedStays(isa: M.InstructionSet, s: Sys, es: seq<Event>)
    requires ThreadSafe(s) && s.control == Waiting && es != [] && WaitReturns !in es
    ensures Published(isa, s, es) <==> Published(isa, Next(isa, s, es[0]), es[1..])
  {
    hide Next, ThreadSafe;
    WaitHolds(isa, s, es[0]);
  }

  /** Whatever the worker, a Halt and refused commands do meanwhile, a Wait called on a running
      simulator returns if and only if the end of the run has been published. */
  lemma WaitUntilPublished(isa: M.InstructionSet, s: Sys, es: seq<Event>)
    requires ThreadSafe(s) && s.control == Idle && s.core.status == Running && WaitReturns !in es
    ensures var t := After(isa, s, [WaitCmd] + es);
      var t' := Next(isa, t, WaitReturns);
      && t.control == Waiting
      && (t'.control == Idle <==> Published(isa, s, [WaitCmd] + es))
      && (t'.control == Idle ==> t'.core.status == Halted && t'.workers == [])
  {
    hide Next, ThreadSafe;
    var s1 := Next(isa, s, WaitCmd);
    WaitBlocksExactly(isa, s);
    NextThreadSafe(isa, s, WaitCmd);
    assert ([WaitCmd] + es)[1..] == es;
    WaitHoldsOn(isa, s1, es);
    WaitReturnsExactly(isa, After(isa, s1, es));
  }
}
