/** What a debugger makes a program do, as a list of moves: so many instructions, or a register
    changed by hand. A script is played by the plain machine and by the manual. */
module Scripts {
  import opened Words
  import opened BinFormat
  import opened Controller
  import M = Machine
  import Ref = Reference
  import Spec = Refinement

  datatype Move = Go(k: nat) | Put(n: RegName, v: int)

  /** A register, or the pc, set by hand; a name that does not exist changes nothing. */
  function Updated(a: M.Arch, n: RegName, v: int): M.Arch
  {
    if n == PcName then a.(pc := Wrap(v))
    else if Exists(n) then a.(x := a.x[n.r := Wrap(v)])
    else a
  }

  /** The script on the plain machine. */
  function Replay(isa: M.InstructionSet, a: M.Arch, moves: seq<Move>): M.Arch
    decreases |moves|
  {
    if moves == [] then a
    else if moves[0].Put? then Replay(isa, Updated(a, moves[0].n, moves[0].v), moves[1..])
    else Replay(isa, M.Run(isa, a, moves[0].k), moves[1..])
  }

  /** The script on the manual's machine, as far as the first instruction that does not retire. */
  function Play(a: M.Arch, moves: seq<Move>): Spec.Execution
    decreases |moves|
  {
    if moves == [] then Spec.Retires(a)
    else if moves[0].Put? then Play(Updated(a, moves[0].n, moves[0].v), moves[1..])
    else
      var e := Spec.ManualRun(a, moves[0].k);
      if e.Retires? then Play(e.state, moves[1..]) else e
  }

  /** Every instruction of the script is ordinary and does not depart from the manual. */
  predicate ByTheBook(a: M.Arch, moves: seq<Move>)
    decreases |moves|
  {
    if moves == [] then true
    else if moves[0].Put? then ByTheBook(Updated(a, moves[0].n, moves[0].v), moves[1..])
    else
      var e := Spec.ManualRun(a, moves[0].k);
      Spec.ByTheBook(a, moves[0].k) && (e.Retires? ==> ByTheBook(e.state, moves[1..]))
  }

  /** The instructions of a script. */
  function Length(moves: seq<Move>): nat
    decreases |moves|
  {
    if moves == [] then 0 else (if moves[0].Go? then moves[0].k else 0) + Length(moves[1..])
  }

  /** A script played by the book leaves the plain machine in the manual's state. */
  lemma {:induction false} PlayRefines(illegalSize: Word, a: M.Arch, b: M.Arch, moves: seq<Move>)
    requires ByTheBook(b, moves) && M.Agree(a, b)
    ensures Spec.Conforms(Replay(M.RV32(illegalSize), a, moves), Play(b, moves))
    decreases |moves|
  {
    hide M.RV32, M.Run, Spec.ManualRun, Spec.ByTheBook;
    var isa := M.RV32(illegalSize);
    if moves != [] {
      match moves[0] {
        case Go(k) =>
          M.Rv32Framed(illegalSize);
          M.RunAgrees(isa, a, b, k);
          Spec.RunRefines(illegalSize, b, k);
          PlayRefines(illegalSize, M.Run(isa, a, k), Spec.ManualRun(b, k).state, moves[1..]);
        case Put(n, v) =>
          PlayRefines(illegalSize, Updated(a, n, v), Updated(b, n, v), moves[1..]);
      }
    }
  }

  /** The opcodes of the instructions of a script. */
  function Opcodes(isa: M.InstructionSet, a: M.Arch, moves: seq<Move>): multiset<Opcode>
    decreases |moves|
  {
    if moves == [] then multiset{}
    else if moves[0].Put? then Opcodes(isa, Updated(a, moves[0].n, moves[0].v), moves[1..])
    else Ref.Opcodes(isa, a, moves[0].k) + Opcodes(isa, M.Run(isa, a, moves[0].k), moves[1..])
  }

  lemma {:induction false} ReplayJoins(isa: M.InstructionSet, a: M.Arch, first: seq<Move>, then_: seq<Move>)
    ensures Replay(isa, a, first + then_) == Replay(isa, Replay(isa, a, first), then_)
    ensures Length(first + then_) == Length(first) + Length(then_)
    ensures Opcodes(isa, a, first + then_) == Opcodes(isa, a, first) + Opcodes(isa, Replay(isa, a, first), then_)
    decreases |first|
  {
    hide M.Run, Ref.Opcodes;
    if first == [] {
      assert first + then_ == then_;
    } else {
      assert (first + then_)[1..] == first[1..] + then_;
      match first[0] {
        case Go(k) => ReplayJoins(isa, M.Run(isa, a, k), first[1..], then_);
        case Put(n, v) => ReplayJoins(isa, Updated(a, n, v), first[1..], then_);
      }
    }
  }

  lemma ReplayOne(isa: M.InstructionSet, a: M.Arch, m: Move)
    ensures Replay(isa, a, [m]) == if m.Put? then Updated(a, m.n, m.v) else M.Run(isa, a, m.k)
    ensures Length([m]) == if m.Go? then m.k else 0
    ensures Opcodes(isa, a, [m]) == if m.Go? then Ref.Opcodes(isa, a, m.k) else multiset{}
  {
    hide M.Run, Ref.Opcodes;
    assert [m][1..] == [];
  }

  /** The script takes the one debuggee to the other, which has retired the script's instructions and
      counted their opcodes, and its stops besides. */
  predicate Leads(isa: M.InstructionSet, d: Ref.Debuggee, moves: seq<Move>, d': Ref.Debuggee)
  {
    && d'.arch == Replay(isa, d.arch, moves)
    && d'.retired == d.retired + Length(moves)
    && d'.traps >= d.traps
    && d'.ops == d.ops + Opcodes(isa, d.arch, moves) + Ref.Stops(d'.traps - d.traps)
  }

  /** A trajectory is the script of its instructions. */
  lemma GoLeads(isa: M.InstructionSet, d: Ref.Debuggee, d': Ref.Debuggee)
    requires Ref.OnTrajectory(isa, d, d')
    ensures d'.retired >= d.retired && Leads(isa, d, [Go(d'.retired - d.retired)], d')
  {
    hide M.Run, Replay, Length, Opcodes, Ref.Opcodes;
    ReplayOne(isa, d.arch, Go(d'.retired - d.retired));
  }

  lemma PutLeads(isa: M.InstructionSet, d: Ref.Debuggee, n: RegName, v: int, d': Ref.Debuggee)
    requires d' == d.(arch := Updated(d.arch, n, v), stopped := d'.stopped)
    ensures Leads(isa, d, [Put(n, v)], d')
  {
    hide M.Run, Replay, Length, Opcodes, Updated;
    ReplayOne(isa, d.arch, Put(n, v));
  }

  lemma LeadsNowhere(isa: M.InstructionSet, d: Ref.Debuggee)
    ensures Leads(isa, d, [], d)
  {
  }

  lemma LeadsOn(isa: M.InstructionSet, d: Ref.Debuggee, first: seq<Move>, d1: Ref.Debuggee, then_: seq<Move>,
                d2: Ref.Debuggee)
    requires Leads(isa, d, first, d1) && Leads(isa, d1, then_, d2)
    ensures Leads(isa, d, first + then_, d2)
  {
    hide Replay, Length, Opcodes;
    ReplayJoins(isa, d.arch, first, then_);
  }
}
