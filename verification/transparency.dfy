/** Breakpoints, the decode cache and the loop's local pc are invisible: each debugger operation
    moves the state a user sees along the trajectory of the plain machine. */
module Transparency {
  import opened Words
  import opened FlatMemory
  import opened BinFormat
  import opened Isa
  import opened Semantics
  import opened Controller
  import opened Patching
  import M = Machine
  import Ref = Reference

  type Arch = M.Arch
  type InstructionSet = M.InstructionSet

  // ---------------------------------------------------------------- what is assumed of the guest

  /** A breakpoint address meets cached words only head on. */
  ghost predicate BesideCode(code: set<Word>, a: Addr)
  {
    forall w :: w in code ==> w == a || Apart(w, 4, a, 4)
  }

  ghost predicate OutsideCode(code: set<Word>, a: Addr, n: int)
  {
    forall w :: w in code ==> Apart(w, 4, a, n)
  }

  /** A fetch at pc meets breakpoint words only head on. */
  ghost predicate HeadOn(bps: Breakpoints, pc: Word)
  {
    forall b :: b in bps ==> b == pc || Apart(pc, 4, b, 4)
  }

  /** The next instruction of the plain machine touches a breakpoint word only by a fetch at its
      address, and stores to no word that is cached when it executes. */
  ghost predicate Regular(isa: InstructionSet, r: Arch, bps: Breakpoints, cached: set<Word>)
  {
    var i := M.Fetch(isa, r.mem, r.pc);
    var t := isa.touched(i, r.x);
    && HeadOn(bps, r.pc)
    && (t.Some? ==> ClearOf(bps, t.value.0, t.value.1))
    && (t.Some? && isa.effect(i, r.x, r.mem).store.Some? ==>
          OutsideCode(Fill(cached, r.pc), t.value.0, t.value.1))
  }

  /** The next n instructions are regular, as far as the first with a breakpoint on it. */
  ghost predicate Safe(isa: InstructionSet, r: Arch, bps: Breakpoints, cached: set<Word>, n: nat)
    decreases n
  {
    n > 0 && r.pc !in bps ==>
      Regular(isa, r, bps, cached) && Safe(isa, M.Step(isa, r), bps, Fill(cached, r.pc), n - 1)
  }

  /** The instruction that the core owes can be executed: it is regular and has the four bytes of the
      ebreak in its place. */
  ghost predicate Leavable(isa: InstructionSet, r: Arch, bps: Breakpoints, cached: set<Word>)
  {
    Regular(isa, r, bps, cached) && M.Fetch(isa, r.mem, r.pc).size == 4
  }

  // ---------------------------------------------------------------- the invariant

  ghost predicate Inv(isa: InstructionSet, c: Core)
  {
    && Coherent(isa, c.cache, c.mem)
    && Spaced(c.bps)
    && Planted(c.mem, c.bps)
    && (forall b :: b in c.bps ==> BesideCode(CodeOf(c.cache), b))
  }

  /** The core, with the given pc, shows the state r: patched words count as restored. */
  ghost predicate Shows(c: Core, pc: Word, r: Arch)
  {
    c.x == r.x && pc == r.pc && Restores(c.mem, c.bps, r.mem)
  }

  /** The pc a user reads at a halted core. */
  function VisiblePc(c: Core): Word
  {
    ReadRegister(c, PcName)
  }

  /** At a core stopped at a breakpoint the pc register has already moved past it. */
  predicate Owes(c: Core)
  {
    Pending(c) ==> c.pcReg == Wrap(c.previousPc + 4)
  }

  /** The simulation relation at a halted core. */
  ghost predicate Tracks(isa: InstructionSet, c: Core, d: Ref.Debuggee)
  {
    && Inv(isa, c) && Shows(c, VisiblePc(c), d.arch) && Owes(c)
    && Pending(c) == d.stopped
  }

  // ---------------------------------------------------------------- one turn of the loop

  /** An instruction with no breakpoint on it has the plain machine's effect. */
  lemma ExecutedSimulates(isa: InstructionSet, c: Core, i: Inst, r: Arch, cached: set<Word>)
    requires M.Framed(isa) && Regular(isa, r, c.bps, cached)
    requires i == M.Fetch(isa, r.mem, r.pc) && c.x == r.x && Restores(c.mem, c.bps, r.mem)
    ensures isa.effect(i, c.x, c.mem) == isa.effect(i, r.x, r.mem)
    ensures var c' := Executed(isa, c, i);
      && c'.x == M.Step(isa, r).x
      && Restores(c'.mem, c.bps, M.Step(isa, r).mem)
  {
    var t := isa.touched(i, r.x);
    var e := isa.effect(i, r.x, r.mem);
    assert M.SameIn(t, c.mem, r.mem) by {
      if t.Some? { SameOutside(c.mem, c.bps, r.mem, t.value.0, t.value.1); }
    }
    assert M.Shaped(i, e, t);
    if e.store.Some? { StoreOutside(c.mem, c.bps, r.mem, e.store.value); }
  }

  /** The store of a regular instruction, if it has one, keeps the invariant. */
  lemma StoreKeepsInv(isa: InstructionSet, c: Core, i: Inst, r: Arch, cached: set<Word>)
    requires M.Framed(isa) && Regular(isa, r, c.bps, cached) && Inv(isa, c)
    requires CodeOf(c.cache) == Fill(cached, r.pc)
    requires i == M.Fetch(isa, r.mem, r.pc) && c.x == r.x
    requires isa.effect(i, c.x, c.mem) == isa.effect(i, r.x, r.mem)
    ensures Inv(isa, Executed(isa, c, i))
  {
    var e := isa.effect(i, c.x, c.mem);
    assert M.Shaped(i, e, isa.touched(i, r.x));
    if e.store.Some? {
      var p := e.store.value;
      assert OutsideCode(CodeOf(c.cache), p.a, p.n) && ClearOf(c.bps, p.a, p.n);
      CacheOutside(c.cache, p.a, p.n);
      StoreKeepsCoherent(isa, c.cache, c.mem, p);
      forall b | b in c.bps
        ensures LoadWord(Store(c.mem, p.a, p.n, p.v), b) == M.EBREAK
      {
        assert Apart(p.a, p.n, b, 4);
        LoadApart(c.mem, p.a, p.n, p.v, b, 4);
      }
    }
  }

  lemma CacheOutside(cache: Cache, a: Addr, n: int)
    requires OutsideCode(CodeOf(cache), a, n)
    ensures CacheClearOf(cache, a, n)
  {
    forall s | s in cache ensures Apart(cache[s].address, 4, a, n) { assert cache[s].address in CodeOf(cache); }
  }

  lemma CacheBeside(cache: Cache, a: Addr)
    requires BesideCode(CodeOf(cache), a)
    ensures CacheClearBut(cache, a)
  {
    forall s | s in cache
      ensures cache[s].address == a || Apart(cache[s].address, 4, a, 4)
    {
      assert cache[s].address in CodeOf(cache);
    }
  }

  /** Looking the next instruction up keeps the invariant. */
  lemma LookupKeepsInv(isa: InstructionSet, c: Core, pc: Word)
    requires M.Framed(isa) && Inv(isa, c) && HeadOn(c.bps, pc)
    ensures Inv(isa, c.(cache := Filled(isa, c.cache, c.mem, pc)))
    ensures Cached(isa, c.cache, c.mem, pc) == M.Fetch(isa, c.mem, pc)
    ensures CodeOf(Filled(isa, c.cache, c.mem, pc)) == Fill(CodeOf(c.cache), pc)
  {
    LookupCoherent(isa, c.cache, c.mem, pc);
    FilledCode(isa, c.cache, c.mem, pc);
    forall b | b in c.bps ensures BesideCode(Fill(CodeOf(c.cache), pc), b) { assert BesideCode(CodeOf(c.cache), b); }
  }

  /** Breakpoints far enough from each other are met head on. */
  lemma BreakpointHeadOn(bps: Breakpoints, pc: Word)
    requires Spaced(bps) && pc in bps
    ensures HeadOn(bps, pc)
  {
  }

  lemma TurnTraps(isa: InstructionSet, c: Core, r: Arch)
    requires M.Framed(isa) && Inv(isa, c) && Shows(c, r.pc, r) && r.pc in c.bps
    ensures var p := Turn(isa, c, r.pc);
      p == Point(Tally(c.(cache := Filled(isa, c.cache, c.mem, r.pc), reason := SoftwareBreakpoint, halted := true),
                       Ebreak),
                 Wrap(r.pc + 4))
  {
    hide Inv, M.Framed, Cached, Filled, Store, OpcodeIndex;
    TrapFetched(isa, c, r.pc);
  }

  /** At a breakpoint the cache or the memory gives an ebreak of four bytes. */
  lemma TrapFetched(isa: InstructionSet, c: Core, pc: Word)
    requires M.Framed(isa) && Inv(isa, c) && pc in c.bps
    ensures var i := Cached(isa, c.cache, c.mem, pc);
      && i.op == Ebreak && i.address == pc && i.size == 4
      && isa.effect(i, c.x, c.mem) == NO_EFFECT.(ebreak := true)
  {
    hide Coherent, Spaced, BesideCode, CodeOf;
    BreakpointHeadOn(c.bps, pc);
    LookupKeepsInv(isa, c, pc);
    var i := Cached(isa, c.cache, c.mem, pc);
    assert i == isa.decode(pc, M.EBREAK);
    assert M.Shaped(i, isa.effect(i, c.x, c.mem), isa.touched(i, c.x));
  }

  /** Away from the breakpoints the patched memory holds the instruction of the plain machine. */
  lemma FetchShown(isa: InstructionSet, c: Core, r: Arch)
    requires Shows(c, r.pc, r) && HeadOn(c.bps, r.pc) && r.pc !in c.bps
    ensures M.Fetch(isa, c.mem, r.pc) == M.Fetch(isa, r.mem, r.pc)
  {
    assert ClearOf(c.bps, r.pc, 4);
    SameOutside(c.mem, c.bps, r.mem, r.pc, 4);
    FetchSame(isa, c.mem, r.mem, r.pc);
  }

  lemma RegularHeadOn(isa: InstructionSet, r: Arch, bps: Breakpoints, cached: set<Word>)
    requires Regular(isa, r, bps, cached)
    ensures HeadOn(bps, r.pc)
  {
  }

  lemma TurnSteps(isa: InstructionSet, c: Core, r: Arch)
    requires M.Framed(isa) && Inv(isa, c) && Shows(c, r.pc, r) && Regular(isa, r, c.bps, CodeOf(c.cache))
    requires r.pc !in c.bps
    ensures var p := Turn(isa, c, r.pc);
      && Inv(isa, p.core) && Shows(p.core, p.next, M.Step(isa, r))
      && p.core.reason == c.reason && p.core.halted == c.halted
  {
    hide Inv, Restores, Regular, HeadOn, CodeOf, Fill, Store, StoreTo, LoadWord, OpcodeIndex, M.Framed;
    RegularHeadOn(isa, r, c.bps, CodeOf(c.cache));
    LookupKeepsInv(isa, c, r.pc);
    FetchShown(isa, c, r);
    var i := Cached(isa, c.cache, c.mem, r.pc);
    var c1 := c.(cache := Filled(isa, c.cache, c.mem, r.pc));
    ExecutedSimulates(isa, c1, i, r, CodeOf(c.cache));
    StoreKeepsInv(isa, c1, i, r, CodeOf(c.cache));
    InvIgnoresControl(isa, Executed(isa, c1, i), Turn(isa, c, r.pc).core);
    FetchAddress(isa, r);
  }

  /** A turn counts the instruction it fetched, under its opcode and no other. */
  lemma TurnCounts(isa: InstructionSet, c: Core, next: Word)
    ensures CountsOp(c, Turn(isa, c, next).core, Cached(isa, c.cache, c.mem, next).op)
  {
    hide Cached, Filled, Tally;
    var i := Cached(isa, c.cache, c.mem, next);
    TallyCountsOp(Executed(isa, c.(cache := Filled(isa, c.cache, c.mem, next)), i), i.op);
  }

  /** What a turn leaves alone, how it counts, and what it caches. */
  lemma TurnFrame(isa: InstructionSet, c: Core, next: Word)
    ensures var p := Turn(isa, c, next);
      && p.core.bps == c.bps && p.core.previousPc == c.previousPc && p.core.status == c.status
      && p.core.numInstructions == c.numInstructions + 1
      && p.core.cache == Filled(isa, c.cache, c.mem, next)
  {
    hide Cached, Filled;
  }

  /** A turn at a breakpoint stops in front of it; any other turn is a step of the plain machine. */
  lemma TurnSimulates(isa: InstructionSet, c: Core, r: Arch)
    requires M.Framed(isa) && Inv(isa, c) && Shows(c, r.pc, r)
    requires r.pc !in c.bps ==> Regular(isa, r, c.bps, CodeOf(c.cache))
    ensures var p := Turn(isa, c, r.pc);
      && Inv(isa, p.core) && CodeOf(p.core.cache) == Fill(CodeOf(c.cache), r.pc)
      && if r.pc in c.bps then
           Pending(p.core) && p.core.halted && p.next == Wrap(r.pc + 4) && Shows(p.core, r.pc, r)
         else
           p.core.reason == c.reason && p.core.halted == c.halted && Shows(p.core, p.next, M.Step(isa, r))
    ensures CountsOp(c, Turn(isa, c, r.pc).core, TurnOp(isa, r, c.bps))
  {
    hide Coherent, Planted, CountsOp, CodeOf, Fill, Regular, HeadOn, Turn, Filled, Restores, BesideCode, M.Framed,
         OpcodeIndex;
    TurnFrame(isa, c, r.pc);
    TurnCounts(isa, c, r.pc);
    if r.pc in c.bps {
      BreakpointHeadOn(c.bps, r.pc);
      LookupKeepsInv(isa, c, r.pc);
      TurnTraps(isa, c, r);
      TrapFetched(isa, c, r.pc);
    } else {
      RegularHeadOn(isa, r, c.bps, CodeOf(c.cache));
      LookupKeepsInv(isa, c, r.pc);
      TurnSteps(isa, c, r);
      FetchShown(isa, c, r);
    }
  }

  // ---------------------------------------------------------------- the loop

  /** The pc a user would read after the loop: the breakpoint it stopped at, or the next pc. */
  function LoopPc(e: LoopEnd): Word
  {
    if Pending(e.core) then e.last else e.next
  }

  /** The core and the reference debugger have both executed the same number of instructions. */
  ghost predicate CountsAlike(c: Core, d: Ref.Debuggee, c': Core, d': Ref.Debuggee)
  {
    && c'.numInstructions - c.numInstructions == d'.retired + d'.traps - d.retired - d.traps
    && forall op :: CountOf(c', op) + d.ops[op] == CountOf(c, op) + d'.ops[op]
  }

  /** One instruction more has been counted, under its own opcode and no other. */
  ghost predicate CountsOp(c: Core, c': Core, op: Opcode)
  {
    && c'.numInstructions == c.numInstructions + 1
    && forall o :: CountOf(c', o) == CountOf(c, o) + if o == op then 1 else 0
  }

  lemma TallyCountsOp(c: Core, op: Opcode)
    ensures CountsOp(c, Tally(c, op), op)
  {
    hide Tally, CountOf;
    TallyCounts(c, op, op);
    forall o ensures CountOf(Tally(c, op), o) == CountOf(c, o) + if o == op then 1 else 0 { TallyCounts(c, op, o); }
  }

  predicate SameCounts(c: Core, c': Core)
  {
    c'.numInstructions == c.numInstructions && c'.opcodeCount == c.opcodeCount
  }

  lemma CountsJoin(c: Core, d: Ref.Debuggee, c1: Core, d1: Ref.Debuggee, c2: Core, d2: Ref.Debuggee)
    requires CountsAlike(c, d, c1, d1) && CountsAlike(c1, d1, c2, d2)
    ensures CountsAlike(c, d, c2, d2)
  {
  }

  lemma CountsNumber(c: Core, d: Ref.Debuggee, c': Core, d': Ref.Debuggee)
    requires CountsAlike(c, d, c', d')
    ensures c'.numInstructions - c.numInstructions == d'.retired + d'.traps - d.retired - d.traps
  {
  }

  lemma CountsNone(c: Core, d: Ref.Debuggee)
    ensures CountsAlike(c, d, c, d)
  {
  }

  lemma CountsFrame(c: Core, d: Ref.Debuggee, c': Core, d': Ref.Debuggee, b: Core, b': Core)
    requires CountsAlike(c, d, c', d') && SameCounts(c, b) && SameCounts(c', b')
    ensures CountsAlike(b, d, b', d')
  {
    hide OpcodeIndex;
  }

  /** The opcode that a turn of the reference debugger counts. */
  function TurnOp(isa: InstructionSet, r: Arch, bps: Breakpoints): Opcode
  {
    if r.pc in bps then Ebreak else Ref.NextOp(isa, r)
  }

  lemma TurnCountsAlike(isa: InstructionSet, c: Core, d: Ref.Debuggee, c': Core)
    requires CountsOp(c, c', TurnOp(isa, d.arch, c.bps))
    ensures CountsAlike(c, d, c', Ref.Turn(isa, d, c.bps.Keys))
  {
    hide M.Step, Ref.NextOp, CountOf;
  }

  lemma ResumeCountsAlike(isa: InstructionSet, c: Core, d: Ref.Debuggee, c': Core)
    requires d.stopped && CountsOp(c, c', Ref.NextOp(isa, d.arch))
    ensures CountsAlike(c, d, c', Ref.Resume(isa, d))
  {
    hide M.Step, Ref.NextOp, CountOf;
  }

  /** The cached addresses after at most n turns of the reference debugger. */
  function TurnsCached(isa: InstructionSet, d: Ref.Debuggee, bps: set<Addr>, cached: set<Word>, n: nat): set<Word>
    decreases n
  {
    if n == 0 || d.stopped then cached
    else TurnsCached(isa, Ref.Turn(isa, d, bps), bps, Fill(cached, d.arch.pc), n - 1)
  }

  /** The loop makes the turns of the reference debugger. A halt already requested when it starts
      lets one turn happen. */
  lemma {:induction false} LoopSimulates(isa: InstructionSet, c: Core, d: Ref.Debuggee, last: Word, n: nat)
    requires M.Framed(isa) && Inv(isa, c) && Shows(c, d.arch.pc, d.arch) && !Pending(c) && !d.stopped
    requires Safe(isa, d.arch, c.bps, CodeOf(c.cache), n)
    ensures var e := Loop(isa, c, d.arch.pc, last, n);
      var turns := if c.halted && n > 1 then 1 else n;
      var d' := Ref.Turns(isa, d, c.bps.Keys, turns);
      && Inv(isa, e.core) && Shows(e.core, LoopPc(e), d'.arch)
      && CodeOf(e.core.cache) == TurnsCached(isa, d, c.bps.Keys, CodeOf(c.cache), turns)
      && e.core.bps == c.bps && e.core.status == c.status
      && Pending(e.core) == d'.stopped
      && CountsAlike(c, d, e.core, d') && e.count == e.core.numInstructions - c.numInstructions
      && e.core.halted == (c.halted || d'.stopped)
      && (!d'.stopped ==> e.core.reason == c.reason)
      && (d'.stopped ==> e.next == Wrap(e.last + 4))
    decreases n
  {
    hide Turn, Inv, Shows, Regular, Safe, CodeOf, Fill, M.Step, M.Fetch, M.Framed, CountsAlike, CountsOp, TurnOp,
         Ref.NextOp, Ref.Turns, TurnsCached;
    CountsNone(c, d);
    NoTurn(isa, d, c.bps.Keys, CodeOf(c.cache));
    if n > 0 {
      SafeStep(isa, d.arch, c.bps, CodeOf(c.cache), n);
      TurnSimulates(isa, c, d.arch);
      TurnFrame(isa, c, d.arch.pc);
      var p := Turn(isa, c, d.arch.pc);
      var d1 := Ref.Turn(isa, d, c.bps.Keys);
      OneTurn(isa, d, c.bps.Keys, CodeOf(c.cache), n);
      TurnCountsAlike(isa, c, d, p.core);
      if d.arch.pc !in c.bps && !p.core.halted {
        NextPcShown(p.core, p.next, d1.arch);
        LoopSimulates(isa, p.core, d1, d.arch.pc, n - 1);
        var e := Loop(isa, c, d.arch.pc, last, n);
        CountsJoin(c, d, p.core, d1, e.core, Ref.Turns(isa, d1, c.bps.Keys, n - 1));
      }
    }
  }

  lemma OneTurn(isa: InstructionSet, d: Ref.Debuggee, bps: set<Addr>, cached: set<Word>, n: nat)
    requires n > 0 && !d.stopped
    ensures Ref.Turns(isa, d, bps, n) == Ref.Turns(isa, Ref.Turn(isa, d, bps), bps, n - 1)
    ensures TurnsCached(isa, d, bps, cached, n)
            == TurnsCached(isa, Ref.Turn(isa, d, bps), bps, Fill(cached, d.arch.pc), n - 1)
    ensures Ref.Turns(isa, d, bps, 1) == Ref.Turn(isa, d, bps)
    ensures TurnsCached(isa, d, bps, cached, 1) == Fill(cached, d.arch.pc)
    ensures Ref.Turn(isa, d, bps).stopped ==>
              Ref.Turns(isa, d, bps, n) == Ref.Turn(isa, d, bps)
              && TurnsCached(isa, d, bps, cached, n) == Fill(cached, d.arch.pc)
  {
    hide M.Step, Fill;
    var d1, cached1 := Ref.Turn(isa, d, bps), Fill(cached, d.arch.pc);
    assert Ref.Turns(isa, d, bps, 1) == Ref.Turns(isa, d1, bps, 0);
    assert Ref.Turns(isa, d, bps, n) == Ref.Turns(isa, d1, bps, n - 1);
    assert TurnsCached(isa, d, bps, cached, 1) == TurnsCached(isa, d1, bps, cached1, 0);
    assert TurnsCached(isa, d, bps, cached, n) == TurnsCached(isa, d1, bps, cached1, n - 1);
  }

  lemma NoTurn(isa: InstructionSet, d: Ref.Debuggee, bps: set<Addr>, cached: set<Word>)
    ensures Ref.Turns(isa, d, bps, 0) == d && TurnsCached(isa, d, bps, cached, 0) == cached
  {
  }

  lemma SafeStep(isa: InstructionSet, r: Arch, bps: Breakpoints, cached: set<Word>, n: nat)
    requires Safe(isa, r, bps, cached, n) && n > 0
    ensures r.pc !in bps ==>
              Regular(isa, r, bps, cached) && Safe(isa, M.Step(isa, r), bps, Fill(cached, r.pc), n - 1)
  {
  }

  lemma NextPcShown(c: Core, pc: Word, r: Arch)
    requires Shows(c, pc, r)
    ensures pc == r.pc
  {
  }

  // ---------------------------------------------------------------- stepping over a breakpoint

  /** With its breakpoint lifted, the core shows the same state. */
  lemma DisableSimulates(isa: InstructionSet, c: Core, r: Arch, a: Addr)
    requires M.Framed(isa) && Inv(isa, c) && Restores(c.mem, c.bps, r.mem) && a in c.bps
    ensures var c1 := DisableBreakpoint(c, a);
      var lifted := c1.(bps := c.bps - {a});
      && Inv(isa, lifted) && Restores(c1.mem, lifted.bps, r.mem) && ClearOf(lifted.bps, a, 4)
      && CodeOf(c1.cache) == Drop(CodeOf(c.cache), a) && BesideCode(CodeOf(c.cache), a)
      && c1 == c.(mem := c1.mem, cache := c1.cache, bps := c.bps[a := c.bps[a].(enabled := false)])
      && c.bps[a].saved == LoadWord(r.mem, a)
  {
    LiftRestores(c.mem, c.bps, r.mem, a);
    SavedWord(c.mem, c.bps, r.mem, a);
    assert BesideCode(CodeOf(c.cache), a);
    CacheBeside(c.cache, a);
    CodeWriteKeepsCoherent(isa, c.cache, c.mem, a, c.bps[a].saved);
    InvalidatedCode(isa, c.cache, c.mem, a);
    DroppedBeside(c, a);
    LiftedPlanted(c.mem, c.bps, a, c.bps[a].saved);
  }

  lemma LiftedPlanted(m: Memory, bps: Breakpoints, a: Addr, w: Word)
    requires Spaced(bps) && Planted(m, bps) && a in bps
    ensures Spaced(bps - {a}) && Planted(Store(m, a, 4, w), bps - {a})
  {
    hide Store, Load;
    forall b | b in bps && b != a
      ensures LoadWord(Store(m, a, 4, w), b) == M.EBREAK
    {
      LoadApart(m, a, 4, w, b, 4);
    }
  }

  /** Fewer words cached meet no more breakpoints. */
  lemma DroppedBeside(c: Core, a: Addr)
    requires forall b :: b in c.bps ==> BesideCode(CodeOf(c.cache), b)
    ensures forall b :: b in c.bps ==> BesideCode(Drop(CodeOf(c.cache), a), b)
  {
  }

  /** Putting a breakpoint in place leaves the state shown alone. */
  lemma PlantSimulates(isa: InstructionSet, c: Core, plain: Memory, a: Addr)
    requires M.Framed(isa) && Inv(isa, c) && Restores(c.mem, c.bps, plain)
    requires a !in c.bps && ClearOf(c.bps, a, 4) && BesideCode(CodeOf(c.cache), a)
    ensures var c1 := SetBreakpoint(c, a);
      Inv(isa, c1) && Restores(c1.mem, c1.bps, plain) && CodeOf(c1.cache) == Drop(CodeOf(c.cache), a)
  {
    PlantRestores(c.mem, c.bps, plain, a);
    CacheBeside(c.cache, a);
    CodeWriteKeepsCoherent(isa, c.cache, c.mem, a, M.EBREAK);
    InvalidatedCode(isa, c.cache, c.mem, a);
    DroppedBeside(c, a);
    NewPlanted(c.mem, c.bps, a);
  }

  lemma NewPlanted(m: Memory, bps: Breakpoints, a: Addr)
    requires Spaced(bps) && Planted(m, bps) && ClearOf(bps, a, 4)
    ensures var bps' := bps[a := Breakpoint(LoadWord(m, a), true)];
      Spaced(bps') && Planted(Store(m, a, 4, M.EBREAK), bps')
  {
    hide Store, Load;
    LoadAfterStore(m, a, 4, M.EBREAK);
    forall b | b in bps
      ensures LoadWord(Store(m, a, 4, M.EBREAK), b) == M.EBREAK
    {
      LoadApart(m, a, 4, M.EBREAK, b, 4);
    }
  }

  /** Fetching and executing at an address without a breakpoint is a step of the plain machine,
      whatever the breakpoint manager still lists there. */
  lemma ExecuteLifted(isa: InstructionSet, c: Core, r: Arch, listed: Breakpoints)
    requires M.Framed(isa) && Inv(isa, c) && Restores(c.mem, c.bps, r.mem) && c.x == r.x
    requires Regular(isa, r, c.bps, CodeOf(c.cache)) && r.pc !in c.bps
    ensures var i := Cached(isa, c.cache, c.mem, r.pc);
      var c2 := Executed(isa, c.(cache := Filled(isa, c.cache, c.mem, r.pc), bps := listed), i);
      && i == M.Fetch(isa, r.mem, r.pc)
      && c2.mem == StoreTo(c.mem, isa.effect(i, r.x, r.mem).store)
      && c2.bps == listed && c2.previousPc == c.previousPc && c2.status == c.status
      && SameCounts(c, c2)
      && Inv(isa, c2.(bps := c.bps)) && CodeOf(c2.cache) == Fill(CodeOf(c.cache), r.pc)
      && c2.x == M.Step(isa, r).x && Restores(c2.mem, c.bps, M.Step(isa, r).mem)
      && c2.pcReg == if isa.effect(i, r.x, r.mem).target.Some? then M.Step(isa, r).pc else c.pcReg
  {
    hide Restores, ClearOf, Spaced, Planted, Coherent, OutsideCode, BesideCode, Store, StoreTo, LoadWord;
    hide CodeOf, Fill, HeadOn;
    RegularHeadOn(isa, r, c.bps, CodeOf(c.cache));
    LookupKeepsInv(isa, c, r.pc);
    FetchShown(isa, c, r);
    var i := Cached(isa, c.cache, c.mem, r.pc);
    var c1 := c.(cache := Filled(isa, c.cache, c.mem, r.pc));
    ExecutedSimulates(isa, c1, i, r, CodeOf(c.cache));
    StoreKeepsInv(isa, c1, i, r, CodeOf(c.cache));
  }

  /** The stores of a regular instruction leave every breakpoint word alone. */
  lemma BreakpointWordKept(isa: InstructionSet, r: Arch, m: Memory, bps: Breakpoints, cached: set<Word>, a: Addr)
    requires M.Framed(isa) && Regular(isa, r, bps, cached) && a in bps
    ensures var i := M.Fetch(isa, r.mem, r.pc);
      LoadWord(StoreTo(m, isa.effect(i, r.x, r.mem).store), a) == LoadWord(m, a)
  {
    var i := M.Fetch(isa, r.mem, r.pc);
    var e := isa.effect(i, r.x, r.mem);
    assert M.Shaped(i, e, isa.touched(i, r.x));
    if e.store.Some? {
      var p := e.store.value;
      assert Apart(p.a, p.n, a, 4);
      LoadApart(m, p.a, p.n, p.v, a, 4);
    }
  }

  /** With the breakpoint at pc lifted the instruction there is still regular. */
  lemma RegularLifted(isa: InstructionSet, r: Arch, bps: Breakpoints, cached: set<Word>, a: Addr)
    requires Regular(isa, r, bps, cached) && a == r.pc
    ensures Regular(isa, r, bps - {a}, Drop(cached, a))
    ensures Fill(Drop(cached, a), a) == Fill(cached, a)
  {
  }

  /** The cached addresses after leaving a breakpoint: a listed one is patched again. */
  function LeftCached(pc: Word, bps: set<Addr>, cached: set<Word>): set<Word>
  {
    if pc in bps then Drop(Fill(cached, pc), pc) else Fill(cached, pc)
  }

  /** Stepping over executes the owed instruction once, whether its breakpoint is still there or
      has been cleared. The pc register then holds the next pc exactly when the instruction
      jumps or has the four bytes that the ebreak in its place had. */
  lemma StepOverSimulates(isa: InstructionSet, c: Core, r: Arch)
    requires M.Framed(isa) && Inv(isa, c) && Shows(c, c.previousPc, r) && Regular(isa, r, c.bps, CodeOf(c.cache))
    ensures var c' := StepOver(isa, c);
      var i := M.Fetch(isa, r.mem, r.pc);
      && Inv(isa, c') && c'.bps == c.bps && !Pending(c')
      && CodeOf(c'.cache) == LeftCached(r.pc, c.bps.Keys, CodeOf(c.cache))
      && c'.status == c.status && c'.numInstructions == c.numInstructions + 1
      && c'.x == M.Step(isa, r).x && Restores(c'.mem, c'.bps, M.Step(isa, r).mem)
      && c'.pcReg == if isa.effect(i, r.x, r.mem).target.Some? then M.Step(isa, r).pc else c.pcReg
  {
    var a := c.previousPc;
    if a in c.bps {
      StepOverPlanted(isa, c, r);
    } else {
      ExecuteLifted(isa, c, r, c.bps);
      hide Restores, ClearOf, Spaced, Planted, Coherent, OutsideCode, BesideCode;
    }
  }

  lemma PlantedEnabled(m: Memory, bps: Breakpoints, a: Addr)
    requires Planted(m, bps) && a in bps
    ensures bps[a].enabled
  {
  }

  lemma LiftedWord(c: Core, a: Addr)
    requires a in c.bps && c.bps[a].enabled
    ensures LoadWord(DisableBreakpoint(c, a).mem, a) == c.bps[a].saved
  {
    hide Store, Load;
    LoadAfterStore(c.mem, a, 4, c.bps[a].saved);
  }

  /** Re-enabling a lifted breakpoint is setting it afresh. */
  lemma Replant(c: Core, bps: Breakpoints, a: Addr)
    requires a in bps && bps[a].enabled && c.bps == bps[a := bps[a].(enabled := false)]
    requires LoadWord(c.mem, a) == bps[a].saved
    ensures EnableBreakpoint(c, a) == SetBreakpoint(c.(bps := bps - {a}), a)
    ensures EnableBreakpoint(c, a).bps == bps
  {
    hide Store, LoadWord;
    assert bps[a := bps[a].(enabled := false)][a := bps[a]] == bps;
    assert (bps - {a})[a := bps[a]] == bps;
  }

  lemma FilledBeside(cached: set<Word>, a: Word)
    requires BesideCode(cached, a)
    ensures BesideCode(Fill(cached, a), a)
  {
  }

  lemma StepOverPlanted(isa: InstructionSet, c: Core, r: Arch)
    requires M.Framed(isa) && Inv(isa, c) && Shows(c, c.previousPc, r) && Regular(isa, r, c.bps, CodeOf(c.cache))
    requires c.previousPc in c.bps
    ensures var c' := StepOver(isa, c);
      var i := M.Fetch(isa, r.mem, r.pc);
      && Inv(isa, c') && c'.bps == c.bps && !Pending(c')
      && CodeOf(c'.cache) == LeftCached(r.pc, c.bps.Keys, CodeOf(c.cache))
      && c'.status == c.status && c'.numInstructions == c.numInstructions + 1
      && c'.x == M.Step(isa, r).x && Restores(c'.mem, c'.bps, M.Step(isa, r).mem)
      && c'.pcReg == if isa.effect(i, r.x, r.mem).target.Some? then M.Step(isa, r).pc else c.pcReg
  {
    hide Restores, ClearOf, Spaced, Planted, Coherent, OutsideCode, BesideCode, Store, StoreTo, LoadWord;
    hide M.Step, M.Framed, Regular, CodeOf, Fill, Drop;
    var a := c.previousPc;
    PlantedEnabled(c.mem, c.bps, a);
    var c1 := DisableBreakpoint(c, a);
    var lifted := c1.(bps := c.bps - {a});
    DisableSimulates(isa, c, r, a);
    RegularLifted(isa, r, c.bps, CodeOf(c.cache), a);
    ExecuteLifted(isa, lifted, r, c1.bps);
    var i := Cached(isa, c1.cache, c1.mem, a);
    var c2 := Executed(isa, c1.(cache := Filled(isa, c1.cache, c1.mem, a)), i);
    var lifted2 := Tally(c2, i.op).(bps := c.bps - {a});
    BreakpointWordKept(isa, r, c1.mem, c.bps, CodeOf(c.cache), a);
    LiftedWord(c, a);
    Replant(Tally(c2, i.op), c.bps, a);
    FilledBeside(CodeOf(c.cache), a);
    PlantSimulates(isa, lifted2, M.Step(isa, r).mem, a);
  }

  // ---------------------------------------------------------------- Step and Run

  /** The cached addresses after leaving the breakpoint the debuggee stands at, if it does. */
  function ResumeCached(d: Ref.Debuggee, bps: set<Addr>, cached: set<Word>): set<Word>
  {
    if d.stopped then LeftCached(d.arch.pc, bps, cached) else cached
  }

  /** The instructions that a resumption with up to n turns can reach are regular. */
  ghost predicate SafeFrom(isa: InstructionSet, d: Ref.Debuggee, bps: Breakpoints, cached: set<Word>, n: nat)
  {
    && (d.stopped ==> Leavable(isa, d.arch, bps, cached))
    && Safe(isa, Ref.Resume(isa, d).arch, bps, ResumeCached(d, bps.Keys, cached), n)
  }

  /** The instruction executed on leaving a breakpoint is the program's own. */
  lemma OwedFetched(isa: InstructionSet, c: Core, r: Arch)
    requires M.Framed(isa) && Inv(isa, c) && Shows(c, c.previousPc, r) && Regular(isa, r, c.bps, CodeOf(c.cache))
    ensures var c1 := DisableBreakpoint(c, c.previousPc);
      var i := M.Fetch(isa, r.mem, r.pc);
      && Cached(isa, c1.cache, c1.mem, c.previousPc) == i
      && i.address == r.pc && (isa.effect(i, c1.x, c1.mem).ebreak <==> i.op == Ebreak)
  {
    hide Restores, ClearOf, Spaced, Planted, Coherent, OutsideCode, BesideCode, Store, StoreTo, LoadWord, M.Step;
    hide Regular, CodeOf, Fill, Drop;
    var a := c.previousPc;
    var c1 := DisableBreakpoint(c, a);
    if a in c.bps {
      DisableSimulates(isa, c, r, a);
      RegularLifted(isa, r, c.bps, CodeOf(c.cache), a);
    } else {
      NoSuchBreakpoint(c, a);
    }
    ExecuteLifted(isa, c1.(bps := c.bps - {a}), r, c1.bps);
    var i := M.Fetch(isa, r.mem, r.pc);
    assert i.address == r.pc;
    assert M.Shaped(i, isa.effect(i, c1.x, c1.mem), isa.touched(i, c1.x));
  }

  /** The halt flag after leaving a breakpoint is set only by an ebreak of the program under it. */
  lemma StepOverEcho(isa: InstructionSet, c: Core, d: Ref.Debuggee)
    requires M.Framed(isa) && Inv(isa, c) && Shows(c, c.previousPc, d.arch)
    requires Regular(isa, d.arch, c.bps, CodeOf(c.cache))
    requires d.stopped && !c.halted
    ensures StepOver(isa, c).halted == Ref.Echoes(isa, d, c.bps.Keys)
  {
    hide Inv, Restores, Store, LoadWord, Invalidate, Regular, CodeOf, M.Step, M.Fetch, M.Framed, OpcodeIndex;
    OwedFetched(isa, c, d.arch);
    DisableKeepsKeys(c, c.previousPc);
    EchoedFetch(isa, d);
  }

  lemma EchoedFetch(isa: InstructionSet, d: Ref.Debuggee)
    ensures Ref.NextOp(isa, d.arch) == M.Fetch(isa, d.arch.mem, d.arch.pc).op
  {
  }

  lemma NoSuchBreakpoint(c: Core, a: Addr)
    requires a !in c.bps
    ensures DisableBreakpoint(c, a) == c && c.bps - {a} == c.bps
  {
  }

  lemma StepOverCounts(isa: InstructionSet, c: Core, op: Opcode)
    requires var c1 := DisableBreakpoint(c, c.previousPc); op == Cached(isa, c1.cache, c1.mem, c.previousPc).op
    ensures CountsOp(c, StepOver(isa, c), op)
  {
    hide Cached, Filled, Tally, Store, LoadWord, Invalidate, CountsOp;
    var c1 := DisableBreakpoint(c, c.previousPc);
    var i := Cached(isa, c1.cache, c1.mem, c.previousPc);
    var c2 := Executed(isa, c1.(cache := Filled(isa, c1.cache, c1.mem, c.previousPc)), i);
    TallyCountsOp(c2, i.op);
    CountsOpAlike(c2, Tally(c2, i.op), c, StepOver(isa, c), i.op);
  }

  lemma CountsOpAlike(c: Core, c': Core, b: Core, b': Core, op: Opcode)
    requires CountsOp(c, c', op) && SameCounts(c, b) && SameCounts(c', b')
    ensures CountsOp(b, b', op)
  {
    assert forall o :: CountOf(b, o) == CountOf(c, o) && CountOf(b', o) == CountOf(c', o);
  }

  /** Leaving a breakpoint, for Step and for Run alike. */
  lemma ResumeSimulates(isa: InstructionSet, c: Core, d: Ref.Debuggee)
    requires M.Framed(isa) && Tracks(isa, c, d)
    requires d.stopped ==> Leavable(isa, d.arch, c.bps, CodeOf(c.cache))
    ensures var c1 := if Pending(c) then StepOver(isa, c) else c;
      var d1 := Ref.Resume(isa, d);
      && Inv(isa, c1) && Shows(c1, c1.pcReg, d1.arch) && !Pending(c1) && !d1.stopped
      && CodeOf(c1.cache) == ResumeCached(d, c.bps.Keys, CodeOf(c.cache))
      && c1.bps == c.bps && c1.status == c.status && CountsAlike(c, d, c1, d1)
      && (!c.halted ==> c1.halted == Ref.Echoes(isa, d, c.bps.Keys))
      && c1.numInstructions == c.numInstructions + (if d.stopped then 1 else 0)
  {
    hide StepOver, Restores, Regular, Inv, M.Fetch, CodeOf, LeftCached, DisableBreakpoint, Cached, CountsAlike,
         CountsOp;
    CountsNone(c, d);
    if d.stopped {
      StepOverSimulates(isa, c, d.arch);
      if !c.halted { StepOverEcho(isa, c, d); }
      FetchAddress(isa, d.arch);
      OwedFetched(isa, c, d.arch);
      StepOverCounts(isa, c, Ref.NextOp(isa, d.arch));
      ResumeCountsAlike(isa, c, d, StepOver(isa, c));
    }
  }

  lemma FetchAddress(isa: InstructionSet, r: Arch)
    requires M.Framed(isa)
    ensures M.Fetch(isa, r.mem, r.pc).address == r.pc
  {
  }

  /** The cached addresses after Step(num). */
  function StepCached(isa: InstructionSet, d: Ref.Debuggee, bps: set<Addr>, cached: set<Word>, num: nat): set<Word>
    requires num > 0
  {
    var left := if d.stopped then num - 1 else num;
    TurnsCached(isa, Ref.Resume(isa, d), bps, ResumeCached(d, bps, cached),
                if Ref.Echoes(isa, d, bps) && left > 1 then 1 else left)
  }

  /** Step(num) is num turns of the reference debugger, whatever the uninitialised local held. */
  lemma StepSimulates(isa: InstructionSet, c: Core, d: Ref.Debuggee, num: int, uninit: Word)
    requires M.Framed(isa) && Tracks(isa, c, d) && c.status == Halted && num > 0
    requires SafeFrom(isa, d, c.bps, CodeOf(c.cache), if d.stopped then num - 1 else num)
    ensures var s := Step(isa, c, num, uninit);
      var d' := Ref.StepN(isa, d, c.bps.Keys, num);
      && s.Stepped? && Tracks(isa, s.core, d')
      && CodeOf(s.core.cache) == StepCached(isa, d, c.bps.Keys, CodeOf(c.cache), num)
      && s.core.bps == c.bps && s.core.status == Halted
      && CountsAlike(c, d, s.core, d') && s.count == s.core.numInstructions - c.numInstructions
  {
    hide Inv, Restores, Leavable, Safe, M.Fetch, Loop, StepOver, M.Step, CodeOf, ResumeCached, TurnsCached,
         Ref.Turns, Ref.Resume, Ref.Echoes, CountsAlike;
    var c0 := c.(status := SingleStep, halted := false);
    InvIgnoresControl(isa, c, c0);
    ResumeSimulates(isa, c0, d);
    var c1 := if Pending(c) then StepOver(isa, c0) else c0;
    var d1 := Ref.Resume(isa, d);
    var left := num - if Pending(c) then 1 else 0;
    LoopSimulates(isa, c1, d1, uninit, left);
    var e, s := Loop(isa, c1, c1.pcReg, uninit, left), Step(isa, c, num, uninit);
    InvIgnoresControl(isa, e.core, s.core);
    var d' := Ref.StepN(isa, d, c.bps.Keys, num);
    CountsJoin(c0, d, c1, d1, e.core, d');
    CountsFrame(c0, d, e.core, d', c, s.core);
  }

  /** The invariant is about the guest, the cache and the breakpoints only. */
  lemma InvIgnoresControl(isa: InstructionSet, c: Core, c': Core)
    requires c'.mem == c.mem && c'.cache == c.cache && c'.bps == c.bps
    ensures Inv(isa, c) == Inv(isa, c')
  {
  }

  /** Run, the worker's turns and the publication together: the reference debugger resumes and
      makes the same turns, then a Halt stops it where it is. */
  lemma RunToHaltSimulates(isa: InstructionSet, c: Core, d: Ref.Debuggee, turns: nat, uninit: Word)
    requires M.Framed(isa) && Tracks(isa, c, d)
    requires SafeFrom(isa, d, c.bps, CodeOf(c.cache), turns)
    ensures var c' := RunToHalt(isa, c, turns, uninit);
      var d' := Ref.Turns(isa, Ref.Resume(isa, d), c.bps.Keys, turns);
      && Tracks(isa, c', d')
      && CodeOf(c'.cache)
         == TurnsCached(isa, Ref.Resume(isa, d), c.bps.Keys, ResumeCached(d, c.bps.Keys, CodeOf(c.cache)), turns)
      && c'.bps == c.bps && c'.status == Halted && c'.halted && CountsAlike(c, d, c', d')
  {
    hide Inv, Restores, Leavable, Safe, M.Fetch, Loop, StepOver, M.Step, CodeOf, ResumeCached, TurnsCached,
         CountsAlike, Ref.Turns, Ref.Resume;
    ResumeSimulates(isa, c, d);
    var c1 := Launch(isa, c);
    var d1 := Ref.Resume(isa, d);
    InvIgnoresControl(isa, if Pending(c) then StepOver(isa, c) else c, c1);
    LoopSimulates(isa, c1, d1, uninit, turns);
    var e, c' := Loop(isa, c1, c1.pcReg, uninit, turns), RunToHalt(isa, c, turns, uninit);
    InvIgnoresControl(isa, e.core, c');
    var d' := Ref.Turns(isa, d1, c.bps.Keys, turns);
    CountsFrame(c, d, if Pending(c) then StepOver(isa, c) else c, d1, c, c1);
    CountsJoin(c, d, c1, d1, e.core, d');
    CountsFrame(c, d, e.core, d', c, c');
  }

  // ---------------------------------------------------------------- the other operations

  lemma SetBreakpointSimulates(isa: InstructionSet, c: Core, d: Ref.Debuggee, a: Addr)
    requires M.Framed(isa) && Tracks(isa, c, d)
    requires a !in c.bps ==> ClearOf(c.bps, a, 4) && BesideCode(CodeOf(c.cache), a)
    ensures var c' := SetBreakpoint(c, a);
      && Tracks(isa, c', d) && c'.bps.Keys == c.bps.Keys + {a} && SameCounts(c, c')
      && CodeOf(c'.cache) == (if a in c.bps then CodeOf(c.cache) else Drop(CodeOf(c.cache), a))
      && c'.status == c.status && c'.halted == c.halted
  {
    hide Inv, Restores, Store, LoadWord, M.Fetch, CodeOf, Drop;
    if a !in c.bps { PlantSimulates(isa, c, d.arch.mem, a); }
  }

  lemma ClearBreakpointSimulates(isa: InstructionSet, c: Core, d: Ref.Debuggee, a: Addr)
    requires M.Framed(isa) && Tracks(isa, c, d)
    ensures var c' := ClearBreakpoint(c, a);
      && Tracks(isa, c', d) && c'.bps == c.bps - {a} && SameCounts(c, c')
      && CodeOf(c'.cache) == (if a in c.bps then Drop(CodeOf(c.cache), a) else CodeOf(c.cache))
      && c'.status == c.status && c'.halted == c.halted
  {
    hide Inv, Restores, Store, LoadWord, M.Fetch, ClearOf, CodeOf, Drop;
    if a in c.bps {
      PlantedAt(isa, c, a);
      DisableSimulates(isa, c, d.arch, a);
      assert c.bps[a := c.bps[a].(enabled := false)] - {a} == c.bps - {a};
    } else {
      NoSuchBreakpoint(c, a);
    }
  }

  lemma PlantedAt(isa: InstructionSet, c: Core, a: Addr)
    requires Inv(isa, c) && a in c.bps
    ensures c.bps[a].enabled
  {
  }

  lemma {:induction false} ClearAllSimulates(isa: InstructionSet, c: Core, d: Ref.Debuggee, order: seq<Addr>)
    requires M.Framed(isa) && Tracks(isa, c, d)
    ensures var c' := ClearAll(c, order);
      && Tracks(isa, c', d) && c'.bps == c.bps - (set a | a in order) && SameCounts(c, c')
      && CodeOf(c'.cache) == (set w | w in CodeOf(c.cache) && !(w in c.bps && w in order))
      && c'.status == c.status && c'.halted == c.halted
    decreases |order|
  {
    hide ClearBreakpoint, Tracks, CodeOf;
    if order != [] {
      var c1 := ClearBreakpoint(c, order[0]);
      ClearBreakpointSimulates(isa, c, d, order[0]);
      ClearAllSimulates(isa, c1, d, order[1..]);
      assert order == [order[0]] + order[1..];
      assert c.bps - {order[0]} - (set a | a in order[1..]) == c.bps - (set a | a in order);
    }
  }

  /** The reference debugger's register write: writing the pc leaves the breakpoint. */
  function WrittenTo(d: Ref.Debuggee, n: RegName, v: int): Ref.Debuggee
    requires Exists(n)
  {
    if n == PcName then d.(arch := d.arch.(pc := Wrap(v)), stopped := false)
    else d.(arch := d.arch.(x := d.arch.x[n.r := Wrap(v)]))
  }

  lemma WriteRegisterSimulates(isa: InstructionSet, c: Core, d: Ref.Debuggee, n: RegName, v: int)
    requires Tracks(isa, c, d) && Exists(n)
    ensures Tracks(isa, WriteRegister(c, n, v), WrittenTo(d, n, v))
  {
    hide Inv, Restores, M.Fetch;
    InvIgnoresControl(isa, c, WriteRegister(c, n, v));
  }

  /** A register read at a halted core gives the reference debugger's register. */
  lemma ReadRegisterSimulates(isa: InstructionSet, c: Core, d: Ref.Debuggee, n: RegName)
    requires Tracks(isa, c, d) && Exists(n)
    ensures ReadRegister(c, n) == if n == PcName then d.arch.pc else d.arch.x[n.r]
  {
    hide Inv, Restores, M.Fetch;
  }

  /** Disassembly shows the program's own instruction and changes nothing that can be seen. */
  lemma DisassembleSimulates(isa: InstructionSet, c: Core, d: Ref.Debuggee, a: Word)
    requires M.Framed(isa) && Tracks(isa, c, d) && HeadOn(c.bps, a)
    ensures var (c', i) := Disassembled(isa, c, a);
      && i == M.Fetch(isa, d.arch.mem, a)
      && Tracks(isa, c', d) && c'.bps == c.bps && SameCounts(c, c')
      && CodeOf(c'.cache) == LeftCached(a, c.bps.Keys, CodeOf(c.cache))
      && c'.status == c.status && c'.halted == c.halted
  {
    hide Inv, Restores, Store, LoadWord, M.Framed, DisableBreakpoint, EnableBreakpoint, CodeOf, Fill, Drop, HeadOn;
    var r := d.arch.(pc := a);
    if a in c.bps {
      DisassembleLifted(isa, c, r);
      PlantedAt(isa, c, a);
    } else {
      LookupKeepsInv(isa, c, a);
      InvIgnoresControl(isa, c, c.(pcReg := a));
      FetchShown(isa, c.(pcReg := a), r);
    }
  }

  lemma LiftedHeadOn(bps: Breakpoints, a: Word)
    requires HeadOn(bps, a)
    ensures HeadOn(bps - {a}, a)
  {
  }

  lemma DisassembleLifted(isa: InstructionSet, c: Core, r: Arch)
    requires M.Framed(isa) && Inv(isa, c) && c.x == r.x && Restores(c.mem, c.bps, r.mem)
    requires HeadOn(c.bps, r.pc) && r.pc in c.bps
    ensures var (c', i) := Disassembled(isa, c, r.pc);
      && i == M.Fetch(isa, r.mem, r.pc)
      && Inv(isa, c') && Restores(c'.mem, c'.bps, r.mem)
      && CodeOf(c'.cache) == LeftCached(r.pc, c.bps.Keys, CodeOf(c.cache))
      && c' == c.(mem := c'.mem, cache := c'.cache)
  {
    hide Restores, ClearOf, Spaced, Planted, Coherent, OutsideCode, BesideCode, Store, LoadWord, M.Framed;
    hide CodeOf, HeadOn;
    var a := r.pc;
    PlantedEnabled(c.mem, c.bps, a);
    var c1 := DisableBreakpoint(c, a);
    var lifted := c1.(bps := c.bps - {a});
    DisableSimulates(isa, c, r, a);
    LiftedHeadOn(c.bps, a);
    LookupKeepsInv(isa, lifted, a);
    FetchShown(isa, lifted.(pcReg := a), r);
    var c2 := c1.(cache := Filled(isa, c1.cache, c1.mem, a));
    LiftedWord(c, a);
    Replant(c2, c.bps, a);
    FilledBeside(CodeOf(c.cache), a);
    assert Fill(Drop(CodeOf(c.cache), a), a) == Fill(CodeOf(c.cache), a);
    PlantSimulates(isa, c2.(bps := c.bps - {a}), r.mem, a);
  }
}
