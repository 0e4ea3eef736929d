/** One input for each way in which the simulator or its debugger departs from what a user expects. */
module Witnesses {
  import opened Words
  import opened FlatMemory
  import opened BinFormat
  import opened Isa
  import opened Semantics
  import opened Controller
  import opened Patching
  import opened Transparency
  import opened Interleaving
  import opened Sessions
  import opened HaltRaces
  import opened EndToEnd
  import opened StaleCode
  import opened RunAndStep
  import StepLaws
  import M = Machine
  import Book = Manual
  import Spec = Refinement
  import Ref = Reference

  // ---------------------------------------------------------------- instructions

  /** A machine about to execute an instruction at address 0, all other memory being 0. */
  function Before(i: Book.Instr, x: Regs): M.Arch
    requires Book.InRange(i)
  {
    M.Arch(x, 0, Store(map[], 0, 4, Book.Encode(i)))
  }

  lemma FetchedBefore(i: Book.Instr, x: Regs)
    requires Book.InRange(i)
    ensures LoadWord(Before(i, x).mem, 0) == Book.Encode(i)
    ensures Book.Supported(Book.Encode(i)) && Book.Decoded(Book.Encode(i)) == i
  {
    hide Book.Encode, Book.Decoded, Book.Supported, Store, Load;
    LoadAfterStore(map[], 0, 4, Book.Encode(i));
    Book.DecodeEncode(i);
  }

  lemma StepBefore(i: Book.Instr, x: Regs)
    requires Book.InRange(i) && !Spec.Straddles(i, x)
    ensures Spec.Ordinary(Before(i, x))
    ensures Spec.Departs(Before(i, x)) <==> i.op == Ebreak || Spec.Misaligned(i, x, 0)
    ensures Spec.ManualStep(Before(i, x)) == Spec.ManualExecute(i, x, 0, Before(i, x).mem)
  {
    hide Book.Encode, Book.Decoded, Book.Supported, Book.InRange, Spec.Straddles, Spec.Misaligned, Spec.ManualExecute,
         Load, Store, Spec.LittleEndian, Spec.IsFence;
    FetchedBefore(i, x);
    Spec.SupportedIsNoFence(Book.Encode(i));
    Spec.FetchInSpace(Before(i, x));
  }

  /** What the manual makes of a jump. */
  lemma ManualJump(i: Book.Instr, x: Regs, m: Memory)
    requires Book.InRange(i) && (i.op == Jal || i.op == Jalr)
    ensures var t := Spec.TargetSum(i, x, 0);
      var n := if i.op == Jalr then t - t % 2 else t;
      Spec.ManualExecute(i, x, 0, m) == if n % 4 != 0 then Spec.Raises(Spec.MisalignedTarget)
                                        else Spec.Retires(M.Arch(Spec.SetX(x, i.rd, 4), n, m))
  {
    hide Spec.ManualNext, Spec.TargetSum, Spec.SetX, Spec.ReadX, Spec.Taken;
    JumpNext(i, x, m);
  }

  lemma JumpNext(i: Book.Instr, x: Regs, m: Memory)
    requires Book.InRange(i) && (i.op == Jal || i.op == Jalr)
    ensures var t := Spec.TargetSum(i, x, 0);
      Spec.ManualNext(i, x, 0, m) == M.Arch(Spec.SetX(x, i.rd, 4), if i.op == Jalr then t - t % 2 else t, m)
  {
    hide Spec.LoadResult, Spec.StoreResult, Spec.Computed, Spec.SetX, Spec.ReadX, Spec.Taken;
  }

  /** A jump about to be executed by the simulator. */
  lemma JumpBefore(illegalSize: Word, i: Book.Instr, x: Regs, a: M.Arch)
    requires Book.InRange(i) && (i.op == Jal || i.op == Jalr) && a == Before(i, x)
    ensures a.x == x && a.pc == 0
    ensures M.Step(M.RV32(illegalSize), a) == M.Arch(Spec.SetX(x, i.rd, 4), Spec.TargetSum(i, x, 0), a.mem)
    ensures Spec.ManualStep(a) == Spec.ManualExecute(i, x, 0, a.mem)
  {
    hide Book.Encode, Book.InRange, Book.Decoded, Book.Supported, Store, Load, M.Step, M.RV32;
    hide Spec.ManualStep, Spec.ManualExecute, Spec.Straddles, Spec.Ordinary, Spec.Departs, Spec.Misaligned;
    JumpsTouchNothing(i, x);
    StepBefore(i, x);
    FetchedBefore(i, x);
    Spec.JumpStep(illegalSize, a, i);
  }

  lemma JumpsTouchNothing(i: Book.Instr, x: Regs)
    requires Book.InRange(i) && (i.op == Jal || i.op == Jalr)
    ensures !Spec.Straddles(i, x)
  {
  }

  /** jal x1, 2 links and goes to 2, where the manual raises an exception. */
  lemma JalToTwo(illegalSize: Word)
    ensures var i, x := Book.Instr(Jal, 1, 0, 0, 2), ZeroRegs();
      && M.Step(M.RV32(illegalSize), Before(i, x)) == Before(i, x).(x := x[1 := 4], pc := 2)
      && Spec.ManualStep(Before(i, x)) == Spec.Raises(Spec.MisalignedTarget)
  {
    hide Before, M.Step, M.RV32, Spec.ManualStep, Spec.ManualExecute;
    var i, x := Book.Instr(Jal, 1, 0, 0, 2), ZeroRegs();
    JumpBefore(illegalSize, i, x, Before(i, x));
    ManualJump(i, x, Before(i, x).mem);
  }

  /** jalr x1, x0, 1 goes to 1, where the manual goes to 0. */
  lemma JalrToOne(illegalSize: Word)
    ensures var i, x := Book.Instr(Jalr, 1, 0, 0, 1), ZeroRegs();
      && M.Step(M.RV32(illegalSize), Before(i, x)) == Before(i, x).(x := x[1 := 4], pc := 1)
      && Spec.ManualStep(Before(i, x)) == Spec.Retires(Before(i, x).(x := x[1 := 4], pc := 0))
  {
    hide Before, M.Step, M.RV32, Spec.ManualStep, Spec.ManualExecute;
    var i, x := Book.Instr(Jalr, 1, 0, 0, 1), ZeroRegs();
    JumpBefore(illegalSize, i, x, Before(i, x));
    ManualJump(i, x, Before(i, x).mem);
  }

  /** beq x0, x0, 2 goes to 2, where the manual raises an exception. */
  lemma BeqToTwo(illegalSize: Word)
    ensures var a := Before(Book.Instr(Beq, 0, 0, 0, 2), ZeroRegs());
      && Spec.ManualStep(a) == Spec.Raises(Spec.MisalignedTarget)
      && !Spec.Conforms(M.Step(M.RV32(illegalSize), a), Spec.ManualStep(a))
  {
    hide Before, M.Step, M.RV32, Spec.ManualStep, Spec.ManualExecute, Spec.Ordinary, Spec.Departs, Spec.Misaligned;
    var i := Book.Instr(Beq, 0, 0, 0, 2);
    StepBefore(i, ZeroRegs());
    ManualBranch(i, ZeroRegs(), Before(i, ZeroRegs()).mem);
    Spec.StepRefines(illegalSize, Before(i, ZeroRegs()));
  }

  lemma ManualBranch(i: Book.Instr, x: Regs, m: Memory)
    requires i == Book.Instr(Beq, 0, 0, 0, 2)
    ensures Book.InRange(i) && !Spec.Straddles(i, x) && Spec.Misaligned(i, x, 0)
    ensures Spec.ManualExecute(i, x, 0, m) == Spec.Raises(Spec.MisalignedTarget)
  {
    hide Spec.LoadResult, Spec.StoreResult, Spec.Computed;
  }

  /** sw x1, -1(x0) with x1 = 0x100 writes a byte at 2^32 that the manual writes at 0. */
  lemma StoreOverTheEnd(illegalSize: Word)
    ensures var i, x := Book.Instr(Sw, 0, 0, 1, -1), ZeroRegs()[1 := 0x100];
      && Spec.Straddles(i, x)
      && !Spec.Conforms(M.Step(M.RV32(illegalSize), Before(i, x)), Spec.ManualStep(Before(i, x)))
  {
    hide Before, M.Step, M.RV32, EffectOf, Spec.HasOperands, Spec.Outcome, Spec.ManualStep, Spec.ManualNext, Spec.Built;
    var i, x := Book.Instr(Sw, 0, 0, 1, -1), ZeroRegs()[1 := 0x100];
    var a := Before(i, x);
    StepsBefore(illegalSize, i, x);
    Spec.BuiltOperands(illegalSize, 0, i, x);
    NothingAtTheEnd(i, x);
    Spec.StoreStraddles(Spec.Built(illegalSize, 0, i), i, x, 0, a.mem);
  }

  lemma NothingAtTheEnd(i: Book.Instr, x: Regs)
    requires Book.InRange(i)
    ensures Get(Before(i, x).mem, TWO32) == 0
  {
    hide Book.Encode, ByteAt;
  }

  /** The two machines step the same instruction. */
  lemma StepsBefore(illegalSize: Word, i: Book.Instr, x: Regs)
    requires Book.InRange(i)
    ensures M.Step(M.RV32(illegalSize), Before(i, x))
            == Spec.Outcome(Spec.Built(illegalSize, 0, i), x, Before(i, x).mem)
    ensures Spec.ManualStep(Before(i, x)) == Spec.ManualExecute(i, x, 0, Before(i, x).mem)
  {
    hide Book.Encode, Book.Decoded, Book.Supported, Book.InRange, Spec.ManualExecute, Load, Store, Spec.LittleEndian,
         Spec.IsFence;
    StepIsOutcome(illegalSize, i, x);
    FetchedBefore(i, x);
    Spec.SupportedIsNoFence(Book.Encode(i));
    Spec.FetchInSpace(Before(i, x));
  }

  lemma StepIsOutcome(illegalSize: Word, i: Book.Instr, x: Regs)
    requires Book.InRange(i)
    ensures M.Step(M.RV32(illegalSize), Before(i, x))
            == Spec.Outcome(Spec.Built(illegalSize, 0, i), x, Before(i, x).mem)
  {
    hide Book.Encode, Store, LoadWord, EffectOf;
    FetchedBefore(i, x);
  }

  // ---------------------------------------------------------------- the decode cache

  /** sb x16, 3(x0), which at address 0 stores over its own last byte. */
  const SELF_STORE: Book.Instr := Book.Instr(Sb, 0, 0, 16, 3)

  lemma SelfStoreWord()
    ensures Book.InRange(SELF_STORE) && Book.Encode(SELF_STORE) == 0x0100_01A3
    ensures Book.FormatOf(SELF_STORE.op) == Book.FmtS && Spec.AccessSize(SELF_STORE.op) == 1
  {
  }

  /** A new core in front of that instruction. */
  function SelfStoreCore(u: Word): Core
  {
    SelfStoreWord();
    Initial(u).(mem := Before(SELF_STORE, ZeroRegs()).mem)
  }

  lemma SelfStoreTurn(illegalSize: Word, u: Word)
    ensures var isa, c := M.RV32(illegalSize), SelfStoreCore(u);
      var p := Turn(isa, c, 0);
      && p.core.cache == Filled(isa, map[], c.mem, 0)
      && p.core.mem == Store(c.mem, 3, 1, 0)
  {
    SelfStoreWord();
    hide Book.Encode, Book.InRange, Spec.HasOperands, Spec.Built, Store, LoadWord, Filled, EffectOf, OpcodeIndex,
         Before;
    var isa, c := M.RV32(illegalSize), SelfStoreCore(u);
    var b := Spec.Built(illegalSize, 0, SELF_STORE);
    FetchedSelf(illegalSize, u);
    Spec.BuiltOperands(illegalSize, 0, SELF_STORE, ZeroRegs());
    Spec.StoreEffect(b, SELF_STORE, ZeroRegs(), 0, c.mem);
  }

  lemma FetchedSelf(illegalSize: Word, u: Word)
    ensures SelfStoreCore(u).x == ZeroRegs() && SelfStoreCore(u).cache == map[] && SelfStoreCore(u).bps == map[]
    ensures Book.InRange(SELF_STORE) && LoadWord(SelfStoreCore(u).mem, 0) == Book.Encode(SELF_STORE)
    ensures M.Fetch(M.RV32(illegalSize), SelfStoreCore(u).mem, 0) == Spec.Built(illegalSize, 0, SELF_STORE)
  {
    SelfStoreWord();
    hide Book.Encode, Book.InRange, Decode, Store, Load;
    FetchedBefore(SELF_STORE, ZeroRegs());
  }

  lemma SelfStoreChanges(illegalSize: Word, u: Word)
    ensures var m := SelfStoreCore(u).mem;
      Book.Supported(LoadWord(m, 0)) && LoadWord(StoreAll(m, [Poke(3, 1, 0)]), 0) != LoadWord(m, 0)
      && StoreAll(m, [Poke(3, 1, 0)]) == Store(m, 3, 1, 0)
  {
    hide Book.Supported, Book.Encode, Book.Decoded, M.Fetch, M.RV32, Load, SelfStoreCore;
    var m := SelfStoreCore(u).mem;
    SelfStoreWord();
    FetchedSelf(illegalSize, u);
    Book.DecodeEncode(SELF_STORE);
    StoreAllSplit(m, [], Poke(3, 1, 0));
    assert [] + [Poke(3, 1, 0)] == [Poke(3, 1, 0)];
    BytesOfLoad(m, 0);
    assert ByteAt(LoadWord(m, 0), 3) == Get(m, 0 + 3);
    assert Get(m, 3) == 1 && Get(Store(m, 3, 1, 0), 3) == 0;
    SameWordSameBytes(m, Store(m, 3, 1, 0), 0);
  }

  /** One turn from a new core leaves a stale instruction in the cache: it gives the store as it was,
      while memory holds the store with its last byte cleared. */
  lemma StaleByte(illegalSize: Word, u: Word)
    ensures var isa := M.RV32(illegalSize);
      var c := Turn(isa, SelfStoreCore(u), 0).core;
      Hit(c.cache, 0) && Cached(isa, c.cache, c.mem, 0) != M.Fetch(isa, c.mem, 0)
  {
    hide Book.Supported, Turn, Cached, M.Fetch, M.RV32, Load, SelfStoreCore, Coherent, Hit, Store, Filled;
    var isa, c := M.RV32(illegalSize), SelfStoreCore(u);
    var cache := Filled(isa, map[], c.mem, 0);
    SelfStoreTurn(illegalSize, u);
    SelfStoreChanges(illegalSize, u);
    M.Rv32Framed(illegalSize);
    NothingCached(isa, c.mem);
    LookupCoherent(isa, map[], c.mem, 0);
    HitAfterFill(isa, c.mem);
    StoresOverCachedCode(illegalSize, cache, c.mem, [Poke(3, 1, 0)], 0);
  }

  lemma NothingCached(isa: M.InstructionSet, m: Memory)
    ensures Coherent(isa, map[], m)
  {
  }

  lemma HitAfterFill(isa: M.InstructionSet, m: Memory)
    requires M.Framed(isa)
    ensures Hit(Filled(isa, map[], m, 0), 0)
  {
    hide Load;
  }

  // ---------------------------------------------------------------- code written before it is fetched

  /** sw x2, 4(x0), which at address 0 stores the next instruction. */
  const WRITER: Book.Instr := Book.Instr(Sw, 0, 0, 2, 4)

  /** addi x0, x0, 0. */
  const NOP: Book.Instr := Book.Instr(Addi, 0, 0, 0, 0)

  lemma WriterWords()
    ensures Book.InRange(WRITER) && Book.FormatOf(WRITER.op) == Book.FmtS && Spec.AccessSize(WRITER.op) == 4
    ensures Book.InRange(NOP) && Book.Encode(NOP) == 0x13
  {
  }

  function WriterStart(): M.Arch
  {
    WriterWords();
    Before(WRITER, ZeroRegs()[2 := 0x13])
  }

  lemma WriterFetched(illegalSize: Word)
    ensures var a := WriterStart();
      && Book.InRange(WRITER) && a.x == ZeroRegs()[2 := 0x13] && a.pc == 0
      && M.Fetch(M.RV32(illegalSize), a.mem, 0) == Spec.Built(illegalSize, 0, WRITER)
  {
    WriterWords();
    hide Book.Encode, Book.InRange, Decode, Store, Load;
    FetchedBefore(WRITER, ZeroRegs()[2 := 0x13]);
  }

  lemma WriterEffect(illegalSize: Word, m: Memory)
    requires Book.InRange(WRITER)
    ensures var b, x := Spec.Built(illegalSize, 0, WRITER), ZeroRegs()[2 := 0x13];
      && b.address == 0 && b.size == 4 && Touched(b, x) == Some((4, 4))
      && EffectOf(b, x, m) == NO_EFFECT.(store := Some(Poke(4, 4, 0x13)))
  {
    WriterWords();
    hide Book.Encode, Book.InRange, Spec.HasOperands, Spec.Built, EffectOf, Touched;
    var b, x := Spec.Built(illegalSize, 0, WRITER), ZeroRegs()[2 := 0x13];
    Spec.BuiltOperands(illegalSize, 0, WRITER, x);
    Spec.StoreEffect(b, WRITER, x, 0, m);
    EffectShape(b, x, m);
  }

  lemma WriterStep(illegalSize: Word)
    ensures var isa, a := M.RV32(illegalSize), WriterStart();
      && M.Step(isa, a) == a.(pc := 4, mem := Store(a.mem, 4, 4, 0x13))
      && isa.touched(M.Fetch(isa, a.mem, 0), a.x) == Some((4, 4))
  {
    hide Book.InRange, Spec.Built, WriterStart, Store, Load, EffectOf, Touched;
    WriterFetched(illegalSize);
    WriterEffect(illegalSize, WriterStart().mem);
  }

  /** A program that writes an instruction and then runs into it for the first time is allowed. */
  lemma WrittenThenFetched(illegalSize: Word)
    ensures var isa, a := M.RV32(illegalSize), WriterStart();
      && Safe(isa, a, map[], {}, 2)
      && LoadWord(M.Step(isa, a).mem, M.Step(isa, a).pc) == 0x13 != LoadWord(a.mem, M.Step(isa, a).pc)
  {
    hide Store, Load, Decode, EffectOf, M.Step, M.RV32, WriterStart;
    var isa, a := M.RV32(illegalSize), WriterStart();
    WriterFetched(illegalSize);
    WriterStep(illegalSize);
    LoadAfterStore(a.mem, 4, 4, 0x13);
    NothingAhead();
    NopTouchesNothing(illegalSize, M.Step(isa, a));
  }

  lemma NothingAhead()
    ensures LoadWord(WriterStart().mem, 4) == 0
  {
    hide Book.Encode, ByteAt;
  }

  lemma NopTouchesNothing(illegalSize: Word, a: M.Arch)
    requires LoadWord(a.mem, a.pc) == 0x13
    ensures M.RV32(illegalSize).touched(M.Fetch(M.RV32(illegalSize), a.mem, a.pc), a.x) == None
  {
    WriterWords();
    Book.EncodeOpcode(NOP);
    hide DecodeOpcode, Book.Encode, Load;
  }

  // ---------------------------------------------------------------- an ebreak under a breakpoint

  /** The word 0 is illegal; it has no effect and, here, four bytes. */
  lemma ZeroWord(a: Word)
    ensures var i := M.RV32(4).decode(a, 0);
      && i.op == Illegal && i.size == 4 && i.address == a
      && forall x, m :: EffectOf(i, x, m) == NO_EFFECT && Touched(i, x) == None
  {
    DecodeIsTree(0);
  }

  lemma ZeroRegular(r: M.Arch, bps: Breakpoints, cached: set<Word>)
    requires LoadWord(r.mem, r.pc) == 0 && HeadOn(bps, r.pc)
    ensures Regular(M.RV32(4), r, bps, cached)
    ensures M.Step(M.RV32(4), r) == r.(pc := Wrap(r.pc + 4))
  {
    hide EffectOf, Touched, Load;
    ZeroWord(r.pc);
  }

  lemma EbreakLeavable(r: M.Arch, bps: Breakpoints, cached: set<Word>)
    requires LoadWord(r.mem, r.pc) == M.EBREAK && HeadOn(bps, r.pc)
    ensures Leavable(M.RV32(4), r, bps, cached)
    ensures M.Step(M.RV32(4), r) == r.(pc := Wrap(r.pc + 4))
    ensures M.Fetch(M.RV32(4), r.mem, r.pc).op == Ebreak
  {
    hide EffectOf, Touched, Load, M.RV32;
    var isa := M.RV32(4);
    M.Rv32Framed(4);
    var i := M.Fetch(isa, r.mem, r.pc);
    assert i.op == Ebreak && i.size == 4 && i.address == r.pc;
    assert M.Shaped(i, isa.effect(i, r.x, r.mem), isa.touched(i, r.x));
    EbreakTouches(i, r.x);
  }

  lemma EbreakTouches(i: Inst, x: Regs)
    requires i.op == Ebreak
    ensures M.RV32(4).touched(i, x) == None
  {
  }

  /** A program whose first word is an ebreak. */
  function EbreakProgram(): Memory
  {
    Store(map[], 0, 4, M.EBREAK)
  }

  lemma EbreakProgramWords()
    ensures LoadWord(EbreakProgram(), 0) == M.EBREAK
    ensures LoadWord(EbreakProgram(), 4) == 0 && LoadWord(EbreakProgram(), 8) == 0
  {
    LoadAfterStore(map[], 0, 4, M.EBREAK);
    LoadApart(map[], 0, 4, M.EBREAK, 4, 4);
    LoadApart(map[], 0, 4, M.EBREAK, 8, 4);
  }

  /** The core stopped at a breakpoint set on that ebreak. */
  function EchoCore(u: Word): Core
  {
    var r := Step(M.RV32(4), SetBreakpoint(Initial(u).(mem := EbreakProgram()), 0), 1, u);
    if r.Stepped? then r.core else Initial(u)
  }

  function EchoUser(): Ref.Debuggee
  {
    Ref.Debuggee(M.Arch(ZeroRegs(), 0, EbreakProgram()), true, 0, 1, multiset{Ebreak})
  }

  lemma EchoTracked(u: Word)
    ensures Tracks(M.RV32(4), EchoCore(u), EchoUser())
    ensures EchoCore(u).bps.Keys == {0} && EchoCore(u).status == Halted
  {
    hide Tracks, SetBreakpoint, Step, EbreakProgram, M.RV32, M.Step, CodeOf, Leavable, StepCached, Regular;
    var isa := M.RV32(4);
    var c := Initial(u).(mem := EbreakProgram());
    M.Rv32Framed(4);
    FreshTracks(isa, c);
    NoneSet();
    SetBreakpointSimulates(isa, c, Start(c), 0);
    var c1 := SetBreakpoint(c, 0);
    assert Ref.StepN(isa, Start(c), {0}, 1) == EchoUser();
    StepSimulates(isa, c1, Start(c), 1, u);
  }

  lemma NoneSet()
    ensures ClearOf(map[], 0, 4) && BesideCode(CodeOf(map[]), 0)
  {
  }

  lemma EchoSafe(u: Word)
    ensures SafeFrom(M.RV32(4), EchoUser(), EchoCore(u).bps, CodeOf(EchoCore(u).cache), 2)
    ensures M.Step(M.RV32(4), EchoUser().arch).pc == 4
    ensures Ref.Echoes(M.RV32(4), EchoUser(), {0})
  {
    hide EchoCore, EbreakProgram, Leavable, Regular, M.RV32, M.Step, CodeOf, Fill, Drop;
    EbreakProgramWords();
    EchoTracked(u);
    var isa, bps, cached, r := M.RV32(4), EchoCore(u).bps, CodeOf(EchoCore(u).cache), EchoUser().arch;
    OnlyZero(bps);
    EbreakLeavable(r, bps, cached);
    var r1 := M.Step(isa, r);
    var cached1 := ResumeCached(EchoUser(), bps.Keys, cached);
    ZeroRegular(r1, bps, cached1);
    ZeroRegular(M.Step(isa, r1), bps, Fill(cached1, r1.pc));
  }

  lemma OnlyZero(bps: Breakpoints)
    requires bps.Keys == {0}
    ensures HeadOn(bps, 0) && HeadOn(bps, 4) && HeadOn(bps, 8)
    ensures 0 in bps && 4 !in bps && 8 !in bps
  {
    assert forall b :: b in bps <==> b in bps.Keys;
  }

  /** From there Step(3) and a run of two turns after the owed instruction end differently. */
  lemma EchoParts(u: Word)
    ensures !StepLaws.Alike(Step(M.RV32(4), EchoCore(u), 3, u).core, RunToHalt(M.RV32(4), EchoCore(u), 2, u))
  {
    hide Tracks, SafeFrom, Step, RunToHalt, EchoCore, EchoUser, StepLaws.Alike, M.RV32, M.Step, Ref.Echoes, CodeOf;
    var isa, c, d := M.RV32(4), EchoCore(u), EchoUser();
    M.Rv32Framed(4);
    EchoTracked(u);
    EchoSafe(u);
    EchoStopped(u);
    RunMatchesStepExactly(isa, c, d, 2, u);
  }

  lemma EchoStopped(u: Word)
    ensures StepLaws.Done(EchoCore(u)) == 1
  {
    hide EchoCore, Inv, Restores, M.Fetch, M.RV32;
    EchoTracked(u);
  }

  // ---------------------------------------------------------------- a Halt behind a trap

  /** Set a breakpoint at 0, run and wait; a Halt from outside gets past its check before the worker
      traps. */
  function LateHalt(u: Word): seq<Event>
  {
    [SetBp(0), RunCmd(u), RunSpawns, WaitCmd, WorkerStarts(0), WorkerTests(0), HaltCmd, WorkerExecutes(0)]
  }

  function RaceStart(u: Word): Sys
  {
    Sys(Initial(u), [], Idle, NoHalt, None)
  }

  /** A quiet event of a session that runs from here: the reference debugger does nothing. */
  lemma QuietStep(isa: M.InstructionSet, u: Word, s: Sys, es: seq<Event>, e: Event)
    requires M.Framed(isa) && s == After(isa, RaceStart(u), es) && Follows(isa, s, Start(Initial(u)))
    requires Allowed(isa, s, e, Start(Initial(u))) && RefNext(isa, s, e, Start(Initial(u))) == Start(Initial(u))
    ensures Next(isa, s, e) == After(isa, RaceStart(u), es + [e])
    ensures Follows(isa, Next(isa, s, e), Start(Initial(u)))
  {
    hide Follows, Allowed, RefNext, Next, After;
    NextFollows(isa, s, e, Start(Initial(u)));
    AfterLast(isa, RaceStart(u), es, e);
  }

  lemma RaceLaunched(u: Word)
    ensures var isa := M.RV32(4);
      var s := After(isa, RaceStart(u), [SetBp(0), RunCmd(u), RunSpawns]);
      && Follows(isa, s, Start(Initial(u)))
      && s.core.status == Running && s.core.bps.Keys == {0} && !s.core.halted
      && s.workers == [Worker(Starting, 0, u)] && s.control == Idle && s.halt == NoHalt
  {
    hide Follows, SetBreakpoint, M.RV32, StepOver, After, CodeOf;
    var isa, s0 := M.RV32(4), RaceStart(u);
    M.Rv32Framed(4);
    NoneSet();
    FreshFollows(isa, Initial(u));
    SetShape(u);
    AfterNone(isa, s0);
    QuietStep(isa, u, s0, [], SetBp(0));
    var s1 := Next(isa, s0, SetBp(0));
    assert [] + [SetBp(0)] == [SetBp(0)];
    QuietStep(isa, u, s1, [SetBp(0)], RunCmd(u));
    var s2 := Next(isa, s1, RunCmd(u));
    assert [SetBp(0)] + [RunCmd(u)] == [SetBp(0), RunCmd(u)];
    QuietStep(isa, u, s2, [SetBp(0), RunCmd(u)], RunSpawns);
    assert [SetBp(0), RunCmd(u)] + [RunSpawns] == [SetBp(0), RunCmd(u), RunSpawns];
  }

  lemma AfterNone(isa: M.InstructionSet, s: Sys)
    ensures After(isa, s, []) == s
  {
  }

  /** The system just before the worker executes. */
  lemma RaceSetUp(u: Word)
    ensures var isa := M.RV32(4);
      var s := After(isa, RaceStart(u), LateHalt(u)[..7]);
      && Follows(isa, s, Start(Initial(u)))
      && s.halt == HaltAccepted && s.control == Waiting && s.core.status == Running && s.core.bps.Keys == {0}
      && |s.workers| == 1 && s.workers[0].phase == Executing
  {
    hide Follows, M.RV32, After;
    var isa := M.RV32(4);
    M.Rv32Framed(4);
    RaceLaunched(u);
    var es3: seq<Event> := [SetBp(0), RunCmd(u), RunSpawns];
    var s3 := After(isa, RaceStart(u), es3);
    QuietStep(isa, u, s3, es3, WaitCmd);
    var s4 := Next(isa, s3, WaitCmd);
    QuietStep(isa, u, s4, es3 + [WaitCmd], WorkerStarts(0));
    var s5 := Next(isa, s4, WorkerStarts(0));
    QuietStep(isa, u, s5, es3 + [WaitCmd] + [WorkerStarts(0)], WorkerTests(0));
    var s6 := Next(isa, s5, WorkerTests(0));
    QuietStep(isa, u, s6, es3 + [WaitCmd] + [WorkerStarts(0)] + [WorkerTests(0)], HaltCmd);
    assert LateHalt(u)[..7] == es3 + [WaitCmd] + [WorkerStarts(0)] + [WorkerTests(0)] + [HaltCmd];
  }

  lemma SetShape(u: Word)
    ensures var c := SetBreakpoint(Initial(u), 0);
      c == Initial(u).(mem := c.mem, cache := c.cache, bps := c.bps) && c.bps.Keys == {0}
  {
    hide Store, LoadWord;
  }

  /** The race is reached from a new simulator: Halt is past its check, the worker has trapped and not
      yet published, and Halt's write then shows 4, past the breakpoint at 0 that the program has not
      executed. */
  lemma RaceReached(u: Word)
    ensures var isa := M.RV32(4);
      var s := After(isa, RaceStart(u), LateHalt(u));
      && s.halt == HaltAccepted && s.core.reason == SoftwareBreakpoint && s.core.status == Running
      && Follows(isa, s, Start(Initial(u)).(stopped := true, traps := 1, ops := multiset{Ebreak}))
      && ShownPc(s) == 0
      && ShownPc(Next(isa, s, HaltWritesReason)) != 0
  {
    hide Follows, M.RV32, Turn, Traps, After, ShownPc, CodeOf;
    var isa, d, s := M.RV32(4), Start(Initial(u)), After(M.RV32(4), RaceStart(u), LateHalt(u)[..7]);
    M.Rv32Framed(4);
    RaceSetUp(u);
    NextFollows(isa, s, WorkerExecutes(0), d);
    var s' := Next(isa, s, WorkerExecutes(0));
    assert LateHalt(u) == LateHalt(u)[..7] + [WorkerExecutes(0)];
    AfterLast(isa, RaceStart(u), LateHalt(u)[..7], WorkerExecutes(0));
    var d' := d.(stopped := true, traps := 1, ops := multiset{Ebreak});
    assert RefNext(isa, s, WorkerExecutes(0), d) == d';
    ExecuteKeepsHalt(isa, s);
    FollowsReason(isa, s', d');
    HaltOverwriteExact(isa, s', d');
  }

  lemma {:induction false} AfterLast(isa: M.InstructionSet, s: Sys, es: seq<Event>, e: Event)
    ensures After(isa, s, es + [e]) == Next(isa, After(isa, s, es), e)
    decreases |es|
  {
    hide Next;
    if es == [] {
      assert es + [e] == [e];
      assert [e][1..] == [];
    } else {
      assert (es + [e])[1..] == es[1..] + [e];
      AfterLast(isa, Next(isa, s, es[0]), es[1..], e);
    }
  }

  lemma ExecuteKeepsHalt(isa: M.InstructionSet, s: Sys)
    ensures var s' := Next(isa, s, WorkerExecutes(0)); s'.halt == s.halt && s'.core.status == s.core.status
  {
    hide Turn, Traps;
    if At(s, 0, Executing) { TurnKeepsHalt(isa, s.core, s.workers[0].next); }
  }

  lemma FollowsReason(isa: M.InstructionSet, s: Sys, d: Ref.Debuggee)
    requires Follows(isa, s, d) && d.stopped
    ensures s.core.reason == SoftwareBreakpoint && ShownPc(s) == d.arch.pc
  {
    hide Inv, Restores, M.Fetch;
  }

  // ---------------------------------------------------------------- the lost Halt

  /** A new simulator comes to where a Halt's request is lost: Halt passes its check and writes the
      reason while Run has not yet cleared the flag. */
  lemma EarlyHaltReached(u: Word)
    ensures var s := After(M.RV32(4), RaceStart(u), [RunCmd(u), HaltCmd, HaltWritesReason]);
      s.control.Launching? && s.halt == HaltReasoned && s.core.status == Running
  {
    hide M.RV32, StepOver;
    var isa, s0 := M.RV32(4), RaceStart(u);
    var s1 := Next(isa, s0, RunCmd(u));
    AfterTwo(isa, s1, HaltCmd, HaltWritesReason);
    assert [RunCmd(u), HaltCmd, HaltWritesReason][1..] == [HaltCmd, HaltWritesReason];
  }
}
