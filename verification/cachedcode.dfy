/** Which instructions are cached, over whole sessions: those that the reference debugger has met and
    nothing has evicted or overwritten since. */
module CachedCode {
  import opened Words
  import opened Controller
  import opened Patching
  import opened Transparency
  import opened Interleaving
  import opened Sessions
  import M = Machine
  import Ref = Reference

  /** The cached addresses after one event. */
  function CachedNext(isa: M.InstructionSet, s: Sys, e: Event, d: Ref.Debuggee, cached: set<Word>): set<Word>
  {
    var bps := s.core.bps.Keys;
    match e
    case SetBp(a) => if Admitted(s) && a !in bps then Drop(cached, a) else cached
    case ClearBp(a) => if Admitted(s) && a in bps then Drop(cached, a) else cached
    case ClearBps(order) => if Admitted(s) then set w | w in cached && !(w in bps && w in order) else cached
    case StepCmd(num, _) => if Admitted(s) && num > 0 then StepCached(isa, d, bps, cached, num) else cached
    case RunCmd(_) => if Admitted(s) then ResumeCached(d, bps, cached) else cached
    case Disassemble(a) => if Admitted(s) then LeftCached(a, bps, cached) else cached
    case WorkerExecutes(k) => if At(s, k, Executing) then Fill(cached, d.arch.pc) else cached
    case _ => cached
  }

  lemma EditCaches(isa: M.InstructionSet, s: Sys, e: Event, d: Ref.Debuggee)
    requires M.Framed(isa) && Follows(isa, s, d) && Allowed(isa, s, e, d) && Admitted(s)
    requires e.SetBp? || e.ClearBp? || e.ClearBps? || e.Disassemble?
    ensures CodeOf(Next(isa, s, e).core.cache) == CachedNext(isa, s, e, d, CodeOf(s.core.cache))
  {
    hide Follows, Tracks, SetBreakpoint, ClearBreakpoint, ClearAll, Disassembled, CodeOf, Drop, LeftCached;
    FollowsSafe(isa, s, d);
    HaltedTracks(isa, s, d);
    match e
    case SetBp(a) => SetBreakpointSimulates(isa, s.core, d, a);
    case ClearBp(a) => ClearBreakpointSimulates(isa, s.core, d, a);
    case ClearBps(order) => ClearAllSimulates(isa, s.core, d, order);
    case Disassemble(a) => DisassembleSimulates(isa, s.core, d, a);
  }

  lemma AdvanceCaches(isa: M.InstructionSet, s: Sys, e: Event, d: Ref.Debuggee)
    requires M.Framed(isa) && Follows(isa, s, d) && Allowed(isa, s, e, d)
    requires e.StepCmd? || e.RunCmd? || e.WorkerExecutes?
    ensures CodeOf(Next(isa, s, e).core.cache) == CachedNext(isa, s, e, d, CodeOf(s.core.cache))
  {
    hide Inv, Restores, Regular, Leavable, Step, StepOver, Turn, Traps, SafeFrom, CodeOf, Fill, CountsAlike;
    hide M.Framed, Ref.StepN, StepCached, ResumeCached;
    HaltedOrNot(isa, s, d);
    match e
    case StepCmd(num, u) =>
      if Admitted(s) && num > 0 { StepSimulates(isa, s.core, d, num, u); } else { RefusedFollows(isa, s, e, d); }
    case RunCmd(_) =>
      if Admitted(s) { ResumeSimulates(isa, s.core, d); } else { RefusedFollows(isa, s, e, d); }
    case WorkerExecutes(k) =>
      if At(s, k, Executing) { TurnSimulates(isa, s.core, d.arch); }
  }

  lemma HaltedOrNot(isa: M.InstructionSet, s: Sys, d: Ref.Debuggee)
    requires Follows(isa, s, d)
    ensures ThreadSafe(s) && (s.core.status == Halted ==> Tracks(isa, s.core, d))
  {
    FollowsSafe(isa, s, d);
    if s.core.status == Halted { HaltedTracks(isa, s, d); }
  }

  lemma OthersCache(isa: M.InstructionSet, s: Sys, e: Event)
    requires !e.SetBp? && !e.ClearBp? && !e.ClearBps? && !e.Disassemble? && !e.StepCmd? && !e.RunCmd?
    requires !e.WorkerExecutes?
    ensures Next(isa, s, e).core.cache == s.core.cache
  {
    if IsWorkerEvent(e) {
      hide Turn, Traps, ControllerNext;
    } else {
      hide WorkerNext, Step, Begin, SetBreakpoint, ClearBreakpoint, ClearAll, Disassembled;
    }
  }

  lemma NextCaches(isa: M.InstructionSet, s: Sys, e: Event, d: Ref.Debuggee)
    requires M.Framed(isa) && Follows(isa, s, d) && Allowed(isa, s, e, d)
    ensures CodeOf(Next(isa, s, e).core.cache) == CachedNext(isa, s, e, d, CodeOf(s.core.cache))
  {
    hide Follows, Allowed, Next, CodeOf, StepCached, ResumeCached, LeftCached, Drop, Fill;
    FollowsSafe(isa, s, d);
    match e
    case SetBp(_) | ClearBp(_) | ClearBps(_) | Disassemble(_) =>
      if Admitted(s) { EditCaches(isa, s, e, d); } else { RefusedFollows(isa, s, e, d); }
    case StepCmd(_, _) | RunCmd(_) | WorkerExecutes(_) => AdvanceCaches(isa, s, e, d);
    case _ => OthersCache(isa, s, e);
  }

  function CachedAfter(isa: M.InstructionSet, s: Sys, es: seq<Event>, d: Ref.Debuggee, cached: set<Word>): set<Word>
    decreases |es|
  {
    if es == [] then cached
    else CachedAfter(isa, Next(isa, s, es[0]), es[1..], RefNext(isa, s, es[0], d), CachedNext(isa, s, es[0], d, cached))
  }

  lemma {:induction false} SessionCaches(isa: M.InstructionSet, s: Sys, es: seq<Event>, d: Ref.Debuggee)
    requires M.Framed(isa) && Follows(isa, s, d) && AllAllowed(isa, s, es, d)
    ensures CodeOf(After(isa, s, es).core.cache) == CachedAfter(isa, s, es, d, CodeOf(s.core.cache))
    decreases |es|
  {
    hide Follows, Next, RefNext, CachedNext, Allowed, CodeOf;
    if es != [] {
      NextFollows(isa, s, es[0], d);
      NextCaches(isa, s, es[0], d);
      SessionCaches(isa, Next(isa, s, es[0]), es[1..], RefNext(isa, s, es[0], d));
    }
  }
}
