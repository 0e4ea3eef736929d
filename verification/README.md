# A verified model of the RV32I simulator and its debugger

The repository simulates the RV32I instruction set and puts a debugger in front of it. The debugger
(`RV32ITop`) executes through a decode cache, keeps a local copy of the pc, finds out whether an
instruction jumped by comparing the *identity* of the pc register's data buffer, patches breakpoints
into memory as `ebreak` words, and runs the program in a second thread. This project models the four
layers and proves that together they compute what the RISC-V Instruction Set Manual, Volume I
(Unprivileged ISA, 20191213) says.

`EndToEnd.SessionByTheBook` is the top result. Take any session of breakpoints, steps, runs, halts,
register reads and writes and disassembly, under every interleaving of the two threads and of a `Halt`
called from outside at any time, also while the controller is inside `Run` or blocked in `Wait`. Once it
is at rest, a user sees the registers, the pc and the memory in which the manual leaves the session's script:
the same register writes, with as many instructions between them as were executed and did not trap.
`Driving.Drive` says the same of the object `RV32ITop` itself, with its register buffers, its buffer
identity test and its loops, driven through any list of commands. They rest on, from the outside in:

| file | layer |
|---|---|
| `driving.dfy` | the object driven through commands, against the manual |
| `endtoend.dfy`, `scripts.dfy` | sessions, Step and Run against the manual; scripts of instructions and register writes; x0 |
| `witnesses.dfy` | one input for each finding |
| `interleaving.dfy`, `sessions.dfy`, `waits.dfy`, `haltraces.dfy`, `workers.dfy`, `breakpoints.dfy`, `cachedcode.dfy`, `counters.dfy`, `uninitialised.dfy` | the two threads and a Halt, step by step; sessions against the reference debugger; when Wait returns; a Halt from its call to its effect, early, late and prompt; the threaded run against the run in one piece; the breakpoints listed and the instructions cached; counters; uninitialised locals |
| `transparency.dfy`, `patching.dfy`, `reference.dfy` | forward simulation of each debugger operation; patched memory and the cache; the reference debugger |
| `steplaws.dfy`, `runstep.dfy`, `stalecode.dfy` | Step after Step; Run against Step; stores over cached code |
| `controller.dfy` | each operation of `RV32ITop` as a function on a value, `Core` |
| `top.dfy` | `RV32ITop` as a class with the loops of the source, proved to move its `View` as those functions say |
| `buffers.dfy`, `decoder.dfy`, `registers.dfy` | registers as reference-counted recycled buffers, load contexts, the decoder with its reused buffer, register names |
| `refinement.dfy`, `manual.dfy` | the manual's encoding and semantics, and the refinement |
| `machine.dfy`, `semantics.dfy`, `isa.dfy`, `binformat.dfy`, `memory.dfy`, `words.dfy` | the plain machine, the semantic functions, the operand tables, the match group, memory, 32-bit arithmetic |

Words are integers with the width written out, and memory is a map from integer addresses to bytes
with fill byte 0. The instruction set reaches the debugger proofs as a record of functions about which
only `Machine.Framed` is used; `Machine.Rv32Framed` proves it for this simulator.

## Assumptions

The simulation holds under conditions on the guest and the user, spelled out event by event in
`Sessions.Allowed` against what is cached and patched at that moment. Breakpoint words do not overlap
each other, and a new one does not cut into a cached instruction other than its own. The guest touches a
breakpoint word only by a fetch at its address, and stores to no word that is cached when the store
executes, its own included. An instruction under a breakpoint has four bytes when the breakpoint is
left. And no `Halt` overwrites the reason of a trap. A program that writes code before it first fetches
it, as a boot copy does, is within them (`Witnesses.WrittenThenFetched`). What follows exactly when a
cached word is stored to or a trap's reason is overwritten is among the findings.

The comparison with the manual is for instructions that are ordinary and do not depart
(`Refinement.Ordinary`, `Refinement.Departs`): the pc is aligned, the word is a fence or one the decoder
supports, no access runs over the end of memory, and the instruction is no ebreak and no transfer to a
target that is not four-byte aligned. The last three are exact, see the findings. For Step and Run
alone the condition covers the instructions retired, not what lies beyond the breakpoint that stops
them.

The library parts are modelled as the source uses them. A zero-latency Submit swaps the buffer in and
drops the old one. Allocation returns any free buffer or a new one. Memory takes the addresses it is
given without wrapping them, fills a load's buffer and runs the child at once, holding the context
meanwhile. The decode cache is direct-mapped with 16 Ki entries at a two-byte grain. The breakpoint
manager maps an address to the saved word and an enabled flag, each of its writes invalidates the cache
at that address, and `HasBreakpoint` is true of a disabled breakpoint as long as it is listed.
Re-enabling a breakpoint that was just disabled succeeds, so `Step` never takes its early return.

## Findings

The first six say exactly when they happen, for all inputs, and have an input in `witnesses.dfy`.

- The simulator raises no exceptions and keeps bit 0 of an indirect jump's target. Sections 2.2 and 2.5
  of the manual clear that bit and raise an exception when a jump or a taken branch has a target that is
  not four-byte aligned; section 2.8 makes ebreak a call to the debugger. An instruction agrees with the
  manual exactly when it is no ebreak and no transfer whose target, bit 0 included, is unaligned
  (`Refinement.OutcomeRefines`), and a run agrees at every point exactly when none of its instructions is
  (`Refinement.RunRefinesExactly`). `Witnesses.JalToTwo`, `JalrToOne` and `BeqToTwo` are three that are.
- A data access that runs over address 2^32 does not wrap, unlike section 1.4. It agrees with the
  manual for every memory exactly when it does not straddle the end, loads into x0 apart, which leave no
  trace (`Refinement.StraddleExact`, `Witnesses.StoreOverTheEnd`).
- A `Halt` that lands after a trap's `RequestHalt` overwrites `halt_reason_`. The debugger's view
  survives exactly when no trap had set the reason (`HaltRaces.HaltOverwriteExact`); otherwise the
  session goes on as if the instruction under the breakpoint had been skipped, published or not
  (`HaltOverwriteSkips`, `HaltOverwriteSession`). `Witnesses.RaceReached` reaches it from a new simulator.
- When the instruction under a listed breakpoint is itself an `ebreak`, stepping over it makes the handler
  request a halt again (`Transparency.StepOverEcho`). `Step` notices the request only after one more
  turn, so a halted `Step(1)` is not final (`StepLaws.HaltedStepIsFinal`), while `Run` discards it and
  goes on. The two part ways exactly if, besides, more than one turn follows and the next instruction has
  no breakpoint (`RunAndStep.RunMatchesStepExactly`, `Witnesses.EchoParts`).
- A `Halt` can pass its status check as soon as `Run` has set `run_status_`. If its write of `halted_`
  comes before `Run` clears the flag, the request is lost and the worker starts as if there had been none
  (`HaltRaces.EarlyHaltLost`, reached by `Witnesses.EarlyHaltReached`).
- Stores over a cached instruction leave the old instruction in the cache. After any stores it is what
  memory holds exactly when its four bytes are unchanged (`StaleCode.StoresOverCachedCode`).
  One turn of a new core over a store into its own bytes gets there (`Witnesses.StaleByte`).
- `previous_pc_` can receive an uninitialised local. No session shows it
  (`Uninitialised.UninitialisedUnseen`).
- The identity test for jumps is exact because no instruction submits to pc twice. The released pc
  buffer is free at once (`Buffers.RiscVState.Submit`), and after a second submission pc can have a new
  value in the buffer it had at first (`Buffers.RiscVState.SubmitPcTwice`).
- The debugger can read back what it wrote into x0, but the guest always reads 0 there
  (`EndToEnd.ZeroInvisible`).

## Model

| member | source | states |
|---|---|---|
| EndToEnd.SessionByTheBook | other/rv32i_top.cc:112-353 | At the end of any session, register writes included, under any interleaving of the two threads and of a Halt from outside, the visible registers, pc and restored memory are those in which the manual leaves the session's script, whose instructions number executed − traps |
| Driving.Drive | other/rv32i_top.cc:112-469 | The object, with buffers, identity test and loops, driven through any list of commands ends in the user's state, breakpoints and cached addresses included, shows the manual's execution of the script, and has counted each opcode as often as the script executes it, ebreak for each stop besides |
| Driving.Perform | other/rv32i_top.cc:112-469 | Each command keeps the object in step with the user's debugger and answers with the right status; a register read replies with the user's register, a Step with the count of instructions and stops |
| Driving.Boot | other/rv32i_top.cc:48-91 | A new object with an image loaded into memory has all registers and counters 0 and is ready to be driven from that image |
| EndToEnd.StepByTheBook | other/rv32i_top.cc:138-189 | Step(num), also from a pending breakpoint, shows the manual's state after the instructions it reports, less the trap if it stopped in front of a breakpoint, which then is at the visible pc; else it reports num. Only the instructions retired have to be by the book |
| EndToEnd.RunByTheBook | other/rv32i_top.cc:192-254 | Run, its worker and a Halt after any number of turns show the manual's state after the instructions executed, less the trap. Only the instructions retired have to be by the book |
| EndToEnd.FreshFollows | other/rv32i_top.cc:48-91 | A core as constructed and loaded, with both threads at rest, is in the simulation relation, so every session can start from it |
| EndToEnd.ZeroInvisible | riscv_full_decoder/solution/riscv32i_encoding.cc:106-140 | Whatever value the debugger puts into x0, every run of the guest is the same but for that value: x0 is neither read nor overwritten |
| Sessions.SessionFollows | other/rv32i_top.cc:112-270 | Every interleaved session, with Halts at any point of Run, Wait or the worker, keeps the core and the worker in step with a debugger that patches, caches and buffers nothing, and every counter rises by its retired instructions plus traps, opcode by opcode. Stores must miss only what is cached when they execute |
| Sessions.SessionReads | other/rv32i_top.cc:280-316 | After any such session a register read at rest returns the reference debugger's register, and memory with the patches taken out is its memory |
| Sessions.SessionReplays | other/rv32i_top.cc:112-353 | Any session takes the plain machine through its script: the admitted register writes, with the retired instructions between them, whose opcodes are those counted |
| Scripts.PlayRefines | riscv_isa_decoder/solution/riscv32i.isa:23-146 | A script of instructions and register writes played by the book leaves the plain machine in the manual's state |
| Sessions.NextFollows | other/rv32i_top.cc:112-270 | Each atomic step of the controller, of the worker or of a Halt is one step of the reference debugger or none |
| Interleaving.AlwaysThreadSafe | other/rv32i_top.cc:192-270 | Over every run, with a Halt called at any moment, there is at most one worker, run_status_ is kRunning exactly from Run's write of it to the publication, and neither the publication nor a blocked Wait meets a missing notification. When Wait returns is said by Waits.WaitUntilPublished |
| Interleaving.RunningLocksOut | other/rv32i_top.cc:112-124 | While a worker lives no controller step changes anything of the core but halt_reason_ and halted_ |
| Waits.WaitBlocksExactly | other/rv32i_top.cc:256-262 | Wait blocks if and only if the simulator is running; otherwise it returns at once and drops the old notification |
| Waits.WaitReturnsExactly | other/rv32i_top.cc:264-269 | A blocked Wait can return if and only if the run is over, and then no worker is left |
| Waits.WaitUntilPublished | other/rv32i_top.cc:246-270 | Whatever the worker, a Halt and refused commands do meanwhile, a Wait called on a running simulator returns if and only if the end of the run has been published |
| HaltRaces.HaltOverwriteExact | other/rv32i_top.cc:112-124 | Halt's write of halt_reason_ keeps the view right if and only if no trap set the reason before it, published or not |
| HaltRaces.HaltOverwriteSkips | other/rv32i_top.cc:121-122 | After the overwrite, whether or not the trapped worker has published, the state is the reference's with the instruction under the breakpoint skipped |
| HaltRaces.HaltOverwriteSession | other/rv32i_top.cc:121-122 | And so is every session that follows it |
| HaltRaces.EarlyHaltLost | other/rv32i_top.cc:219-220 | A Halt that has passed its check loses its request if its write of halted_ comes before Run clears the flag: the worker starts as if there had been none; after it, the flag is up |
| HaltRaces.HaltAcceptedExactly | other/rv32i_top.cc:112-120 | A Halt gets past its check if and only if the simulator is running, wherever the controller is |
| HaltRaces.CalledHaltFlags | other/rv32i_top.cc:112-124 | A Halt called on a running simulator sets the reason kUserRequest and then halted_, whatever other events fall between its steps |
| HaltRaces.HaltEndsRun | other/rv32i_top.cc:112-252 | When such a Halt has written its flag, the run is over already, or the worker executes at most once more and publishes within four of its events, or Run is still launching and the request is lost |
| HaltRaces.HaltPublishes | other/rv32i_top.cc:232-251 | Once halted_ is set, at most four events of the worker publish kHalted, whatever the controller does between them. That a Halt sets it is said by HaltRaces.CalledHaltFlags |
| HaltRaces.WorkerNeverStuck | other/rv32i_top.cc:228-252 | A live worker always has an event to make |
| HaltRaces.HaltIsPrompt | other/rv32i_top.cc:232-251 | Once halted_ is set while running, every continuation executes at most the one instruction already committed to before the end is published |
| Workers.ThreadedRunIsRunToHalt | other/rv32i_top.cc:192-254 | Every run, through every interleaving of its steps with the controller's and a Halt's, leaves the core of Run in one piece with as many turns as were executed, but for reason and flag; it ends with halted_ set, and if no Halt set it, because the worker trapped. Nothing is asked of the guest |
| Workers.RestOfRun | other/rv32i_top.cc:228-251 | From any phase of the worker on, the rest of the run is the loop with as many turns as are still executed, and none is once the worker has trapped |
| Workers.RunStarts | other/rv32i_top.cc:192-229 | Run on a simulator at rest, whatever flags and notifications are left over, starts one worker with halted_ clear and a fresh notification; on a running one it changes nothing |
| UserBreakpoints.SessionBreakpoints | other/rv32i_top.cc:401-438 | After any session the breakpoints listed are exactly those the user has set and not cleared while the simulator was at rest |
| CachedCode.SessionCaches | other/rv32i_top.cc:57-59 | After any session the addresses in the decode cache are those that the reference debugger's moves, disassembly and patching leave there, evictions included |
| Counters.SessionBalanced | other/rv32i_top.cc:147-178 | num_instructions is the sum of the opcode counters after every step of every session. What each counter holds is said by Sessions.SessionCounters |
| Sessions.SessionCounters | other/rv32i_top.cc:147-178 | After any session each opcode's own counter has gone up by the instructions of that opcode in the script, and the ebreak counter by the stops besides |
| Transparency.TurnCounts | other/rv32i_top.cc:177-178 | A turn adds one to the counter of the opcode fetched, one to num_instructions, and nothing to any other counter |
| BinFormat.IndicesDiffer | other/rv32i_top.cc:147-148 | No two opcodes share a counter |
| Counters.NothingCounted | other/rv32i_top.cc:48-66 | A new core's counters are all 0, and balanced |
| Transparency.TurnSimulates | other/rv32i_top.cc:165-180 | One turn of the loop, cached and with a local pc, stops in front of a breakpoint or is one step of the plain machine; the cache stays coherent |
| Transparency.LoopSimulates | other/rv32i_top.cc:162-183 | The loop makes the reference debugger's turns, however many, and a halt requested beforehand lets one happen; no store may hit a word cached at that turn, and the addresses cached at the end are told |
| Transparency.StepOverSimulates | other/rv32i_top.cc:138-157 | Leaving a breakpoint executes the owed instruction exactly once, also when the breakpoint has been cleared or the instruction jumps, and puts the breakpoint back |
| Transparency.StepOverEcho | other/rv32i_top.cc:76-84 | Leaving a breakpoint raises halted_ if and only if the breakpoint is still listed and the program's own instruction there is an ebreak |
| Transparency.StepSimulates | other/rv32i_top.cc:126-190 | Step(num) is num turns of the reference debugger, whatever the uninitialised local held, and the addresses cached afterwards are told |
| Transparency.RunToHaltSimulates | other/rv32i_top.cc:192-254 | Run, its worker and the publication are the reference's resumption and turns, and the addresses cached afterwards are told |
| Transparency.SetBreakpointSimulates | other/rv32i_top.cc:401-413 | Setting a breakpoint changes nothing visible and keeps the cache coherent |
| Transparency.ClearBreakpointSimulates | other/rv32i_top.cc:415-425 | Nor does clearing one, even the one the core is stopped at |
| Transparency.ClearAllSimulates | other/rv32i_top.cc:427-438 | Nor does clearing any list of them in any order |
| Transparency.WriteRegisterSimulates | other/rv32i_top.cc:318-353 | A register write is the reference's; writing pc at a breakpoint gives up the owed instruction |
| Transparency.ReadRegisterSimulates | other/rv32i_top.cc:280-316 | A register read returns the reference's register, pc included while an instruction is owed |
| Transparency.DisassembleSimulates | other/rv32i_top.cc:445-469 | Disassembly decodes the program's own instruction under a breakpoint and changes nothing visible |
| StepLaws.StepComposes | other/rv32i_top.cc:126-190 | Without a halt, Step(n) then Step(m) is Step(n + m) in the whole core and the count, also from a pending breakpoint |
| StepLaws.HaltedStepIsFinal | other/rv32i_top.cc:138-180 | If Step(n) was halted then Step(n + m) equals it, if and only if it was not a Step(1) from a pending breakpoint |
| StepLaws.ReasonsFound | other/rv32i_top.cc:183-188 | After Step the halt reason is kSoftwareBreakpoint exactly where it stopped at a breakpoint and else none; after Run it is that or kUserRequest |
| Controller.StepErrors | other/rv32i_top.cc:126-135 | Step returns the invalid-argument error exactly for a count that is not positive, and the precondition error exactly otherwise when the core is not halted |
| Uninitialised.UninitialisedUnseen | other/rv32i_top.cc:164-187 | Two sessions that differ only in what previous_pc_ and the locals pc of Step and Run held before they were set have the same registers, memory, counters and visible pc throughout |
| RunAndStep.RunIsStep | other/rv32i_top.cc:162-252 | Unless the core stands at a listed breakpoint on an ebreak of the program, Run's worker and the Step with as many turns leave the same core, a Halt's reason apart |
| RunAndStep.RunMatchesStepExactly | other/rv32i_top.cc:192-252 | They agree in registers, memory, pc, cache and counters if and only if it is not the case that the core stands at a listed breakpoint on an ebreak of the program, more than one turn is to follow, and the next instruction has no breakpoint |
| RunAndStep.EchoExact | other/rv32i_top.cc:76-84 | The halt flag after leaving a breakpoint tells exactly whether the breakpoint is listed and the program's instruction under it is an ebreak |
| Reference.TurnsRunPlain | other/rv32i_top.cc:126-190 | The reference debugger's turns are a run of the plain machine up to the first breakpoint, and it passes none |
| Patching.PlantRestores | other/rv32i_top.cc:69-71 | Planting an ebreak leaves the restored memory alone |
| Patching.LiftRestores | other/rv32i_top.cc:138-155 | Writing the saved word back does too, and leaves no other breakpoint overlapping it |
| Patching.CodeWriteKeepsCoherent | other/rv32i_top.cc:69-74 | A code write with its invalidation keeps every cached entry equal to the decode of memory |
| Patching.StoreKeepsCoherent | other/rv32i_top.cc:383-395 | A store without invalidation does so when it misses every cached word |
| StaleCode.StoresOverCachedCode | other/rv32i_top.cc:57-59 | After any sequence of stores of any widths, a cached instruction of the supported set is what memory holds if and only if its word is unchanged |
| StaleCode.SameWordSameBytes | riscv_semantic_functions/solution/rv32i_instructions.cc:189-200 | A word is unchanged if and only if each of its four bytes is |
| Patching.LookupCoherent | other/rv32i_top.cc:167-168 | A lookup, hit or miss with eviction, returns the decode of current memory and keeps the cache coherent |
| Patching.FilledCode | other/rv32i_top.cc:57-59 | A fetch adds its address to those cached and evicts the one that had its slot |
| Controller.SlotsClash | other/rv32i_top.cc:57-59 | Two instructions at even addresses compete for a cache slot if and only if they are a multiple of 32 KiB apart |
| Top.RV32ITop.constructor | other/rv32i_top.cc:48-91 | The object starts valid, at the initial core, with every register name in the table |
| Top.RV32ITop.AddNames | other/rv32i_top.cc:86-90 | The alias loop gives every xN and every ABI name the register it stands for, and adds no name that stands for another |
| Top.RV32ITop.EBreak | other/riscv_simple_state.cc:114-125 | The loop over the handlers stops at the first that accepts the ebreak; only the debugger's own handler requests a halt, and nothing else changes |
| Top.RV32ITop.Turn | other/rv32i_top.cc:166-178 | The turn in place, with the jump seen by buffer identity, is the turn that looks at the instruction's effect |
| Top.RV32ITop.StepLoop | other/rv32i_top.cc:162-180 | The while loop of Step, ending at the count or at a halt, computes Loop |
| Top.RV32ITop.StepOver | other/rv32i_top.cc:138-157 | Stepping over in place: disable, execute, count, re-enable, clear the reason |
| Top.RV32ITop.Step | other/rv32i_top.cc:126-190 | Both error returns change nothing; otherwise the whole new state and the count are the controller's Step |
| Top.RV32ITop.Run | other/rv32i_top.cc:192-221 | Run while running is refused; otherwise the state is the controller's Launch |
| Top.RV32ITop.WorkerLoop | other/rv32i_top.cc:228-245 | The worker's while loop, ended by a breakpoint or by a Halt after any number of turns, computes Loop |
| Top.RV32ITop.Worker | other/rv32i_top.cc:228-252 | The worker with its write-back and publication is the controller's Work |
| Top.RV32ITop.Halt | other/rv32i_top.cc:112-124 | Halt sets reason and flag of a running core only, and is refused while single-stepping |
| Top.RV32ITop.ReadRegister | other/rv32i_top.cc:280-316 | Refused unless halted; not found exactly if the calling convention has no such name; otherwise that register, with the pc adjusted at a breakpoint |
| Top.RV32ITop.WriteRegister | other/rv32i_top.cc:318-353 | The same for writes, truncated to 32 bits; every other register, memory and control field is kept |
| Top.RV32ITop.SetSwBreakpoint | other/rv32i_top.cc:401-413 | Refused unless halted; otherwise the controller's SetBreakpoint |
| Top.RV32ITop.ClearSwBreakpoint | other/rv32i_top.cc:415-425 | Refused unless halted; otherwise the controller's ClearBreakpoint |
| Top.RV32ITop.ClearAllSwBreakpoints | other/rv32i_top.cc:427-438 | Clears exactly the listed breakpoints, in some order, and leaves none |
| Top.RV32ITop.GetDisassembly | other/rv32i_top.cc:445-469 | Refused unless halted; otherwise the decoded original instruction, with the breakpoint put back |
| Top.RV32ITop.GetDecodedInstruction | other/rv32i_top.cc:57-59 | A hit or a decode through the reused buffer, replacing the slot |
| Buffers.RiscVState.Allocate | riscv_semantic_functions/solution/rv32i_instructions.cc:122-124 | Any recycled or new buffer: nobody holds it, nobody else's contents change, counts equal holders |
| Buffers.RiscVState.DecRef | riscv_semantic_functions/solution/rv32i_instructions.cc:196-199 | A buffer becomes free exactly with its last reference, so no live buffer is in the free list |
| Buffers.RiscVState.Submit | riscv_semantic_functions/solution/rv32i_instructions.cc:122-124 | The register takes the new buffer alone, counts equal holders, and the old buffer is free at once |
| Buffers.RiscVState.SubmitPcTwice | other/rv32i_top.cc:170-175 | Two submissions to pc can leave it a new value in its first buffer, which the identity test would not see |
| Buffers.RiscVState.Overwrite | other/rv32i_top.cc:182-183 | Writing a register's buffer in place changes that register and no other |
| Buffers.RiscVState.BranchConditional | riscv_semantic_functions/solution/rv32i_instructions.cc:113-126 | The branch through buffers has the branch's effect, and pc has a new buffer if and only if the branch is taken |
| Buffers.RiscVState.Jal | riscv_semantic_functions/solution/rv32i_instructions.cc:159-169 | Target and link are submitted through two buffers; the link cannot take the new pc buffer |
| Buffers.RiscVState.Jalr | riscv_semantic_functions/solution/rv32i_instructions.cc:172-183 | The same, with the base read before the link register is written |
| Buffers.RiscVState.StoreValue | riscv_semantic_functions/solution/rv32i_instructions.cc:189-200 | The store through a temporary buffer writes the low bytes and releases the buffer |
| Buffers.RiscVState.LoadValue | riscv_semantic_functions/solution/rv32i_instructions.cc:212-232 | The load through a context and its child sets the extended value and releases everything it took |
| Buffers.LoadContext.DecRef | other/riscv_simple_state.h:48-64 | The value buffer is released with the last hold on the context and only once, destructor included |
| Buffers.RiscVState.Execute | riscv_semantic_functions/solution/rv32i_instructions.cc:48-279 | Executing any instruction has its effect, leaves counts equal to holders, and changes the pc buffer if and only if the instruction wrote pc |
| Buffers.JumpMoves | riscv_semantic_functions/solution/rv32i_instructions.cc:163-168 | A pc submission followed by a link submission is one jump, and its new pc buffer is still seen as new |
| Buffers.RiscVState.SetDataBuffer | other/riscv_simple_state.cc:59-61 | The register takes a reference to another buffer and drops the one it had; counts, holders and the free set stay in agreement |
| Decoder.RiscV32Decoder.DecodeInstruction | riscv_full_decoder/solution/riscv32_decoder.cc:43-53 | Whatever the reused buffer and the parser last held, the result is the decode of the word at the address |
| RegisterNames.NamesOfRegister | other/rv32i_top.cc:43-46 | For each n, xn and entry n of the alias table are the names the calling convention gives register n |
| RegisterNames.NamesDistinct | other/rv32i_top.cc:86-90 | Different registers share no name, and none is pc |
| RegisterNames.NoOtherName | other/rv32i_top.cc:43-46 | A name of register N is xN or entry N of the alias table, and nothing else |
| RegisterNames.TableComplete | other/riscv_simple_state.h:111-122 | A faithful table has an entry for exactly the names of the registers |
| Refinement.OutcomeRefines | riscv_semantic_functions/solution/rv32i_instructions.cc:48-279 | An instruction that does not straddle the end of memory does what the manual says if and only if it is no ebreak and no jump or taken branch to a target that is not four-byte aligned |
| Refinement.StepRefines | riscv_isa_decoder/solution/riscv32i.isa:23-146 | For a fence and every supported word at an aligned pc: match, operand order, getters and semantic function together are the manual's step, exceptions included, under exactly that condition |
| Refinement.FenceRefines | riscv_semantic_functions/solution/rv32i_instructions.cc:265-272 | A fence retires with pc + 4 and no other effect, as the manual has it on one hart |
| Refinement.NoEffectStep | riscv_semantic_functions/solution/zicsr_instructions.cc:21-31 | A CSR instruction does nothing and is four bytes long, and an illegal word does nothing and has the size given for it |
| Refinement.FenceOperand | riscv_semantic_functions/solution/rv32i_instructions.cc:266-273 | The operand of a fence carries the mode, predecessor and successor fields of its word |
| Refinement.RunRefines | riscv_isa_decoder/solution/riscv32i.isa:23-146 | A run of any length in which no instruction departs is the manual's |
| Refinement.RunRefinesExactly | riscv_isa_decoder/solution/riscv32i.isa:23-146 | A run agrees with the manual's at every point if and only if no instruction of it departs |
| Refinement.StraddleExact | riscv_semantic_functions/solution/rv32i_instructions.cc:189-232 | A load or store agrees with the manual for every memory if and only if it does not straddle 2^32, or is a load into x0 |
| Refinement.DecodeInjective | riscv_full_decoder/solution/riscv32i_encoding.cc:93-167 | Words of the supported set that decode to the same instruction object are the same word |
| Refinement.LaidOutProgram | riscv_full_decoder/solution/riscv32_decoder.cc:43-53 | The instruction object fetched from a program laid out as little-endian bytes is the one for the instruction put there, with the operands the manual names |
| Refinement.LuiAddi | riscv_semantic_functions/solution/rv32i_instructions.cc:48-99 | lui then addi, with immediates computed from it, leaves any chosen 32-bit value in any register but x0 |
| Refinement.AuipcJalr | riscv_semantic_functions/solution/rv32i_instructions.cc:103-183 | auipc then jalr reaches any chosen target from any pc, with the right link |
| Refinement.BuiltOperands | riscv_full_decoder/solution/riscv32i_encoding.cc:93-167 | The operands built for an encoded instruction are those the manual names, x0 and sign extension included |
| Manual.DecodeEncode | riscv_bin_decoder/solution/riscv32i.bin_fmt:23-92 | Decoding the manual's encoding of an in-range instruction gives it back |
| Manual.EncodeDecode | riscv_bin_decoder/solution/riscv32i.bin_fmt:111-168 | Every decodable word except fence and CSR is the manual's encoding of what it decodes to |
| Manual.FetchLayout | riscv_full_decoder/solution/riscv32_decoder.cc:43-47 | Each word loaded back from a laid-out program is the encoding of the instruction put there |
| BinFormat.Unambiguous | riscv_bin_decoder/solution/riscv32i.bin_fmt:111-168 | No word satisfies the constraints of two rows |
| BinFormat.OrderIrrelevant | riscv_bin_decoder/solution/riscv32i.bin_fmt:111-168 | A first-match decoder gives the same answer for any order or repetition of the rows |
| BinFormat.DecodeIsTree | riscv_bin_decoder/solution/riscv32i.bin_fmt:111-168 | The match group equals a decision tree on the opcode and function fields |
| Machine.Rv32Framed | riscv_semantic_functions/solution/rv32i_instructions.cc:48-279 | Effects depend on memory only through the bytes touched, stores go there, and the breakpoint word is a four-byte ebreak |
| Machine.StepAgrees | riscv_semantic_functions/solution/rv32i_instructions.cc:189-232 | The machine does not tell apart memories that hold the same bytes |
| Semantics.StoreThenLoad | riscv_semantic_functions/solution/rv32i_instructions.cc:189-262 | Any load of any part of any store: the register holds the stored value shifted down by the bytes skipped, cut to the loaded width, in the range of the signed or unsigned type |
| Semantics.StoresThenLoad | riscv_semantic_functions/solution/rv32i_instructions.cc:189-262 | After any sequence of stores, overlapping in any way, byte i of any loaded register is the one the last store over that address left, in the range of the signed or unsigned type |
| FlatMemory.LoadAfterStores | riscv_semantic_functions/solution/rv32i_instructions.cc:189-223 | A load of one, two or four bytes after any sequence of stores is the little-endian number of the bytes the last covering stores left |
| FlatMemory.LastStoreWins | riscv_semantic_functions/solution/rv32i_instructions.cc:189-200 | After any sequence of stores each byte is the one the last covering store put there |
| FlatMemory.UnwrittenIsZero | riscv_semantic_functions/solution/rv32i_instructions.cc:212-223 | A load of what no store has touched gives 0 |
| FlatMemory.WideStoreIsByteStores | riscv_semantic_functions/solution/rv32i_instructions.cc:202-206 | A wide store equals its byte stores in any order and with repetition |
| FlatMemory.StoreMovesPast | riscv_semantic_functions/solution/rv32i_instructions.cc:189-200 | A store commutes with any sequence of stores apart from it |
| FlatMemory.LoadApart | riscv_semantic_functions/solution/rv32i_instructions.cc:212-223 | A load that misses a store sees memory before it |
| Words.BitOpIsDigitSum | riscv_semantic_functions/solution/rv32i_instructions.cc:53-61 | and, or and xor of two words are the numbers put together from the function of each pair of digits |
| Words.LogicDigits | riscv_semantic_functions/solution/rv32i_instructions.cc:53-61 | Each binary digit of and is the conjunction, of or the disjunction, of xor the difference of the digits in its place |
| Words.SignedShiftFills | riscv_semantic_functions/solution/rv32i_instructions.cc:73-76 | The arithmetic shift drops the low digits and fills with the sign |
| Witnesses.JalToTwo | riscv_semantic_functions/solution/rv32i_instructions.cc:159-169 | jal x1, 2 at 0 links and goes to 2, where the manual raises an exception |
| Witnesses.JalrToOne | riscv_semantic_functions/solution/rv32i_instructions.cc:172-183 | jalr x1, x0, 1 goes to 1, where the manual goes to 0 |
| Witnesses.BeqToTwo | riscv_semantic_functions/solution/rv32i_instructions.cc:113-126 | beq x0, x0, 2 is taken, where the manual raises an exception |
| Witnesses.StoreOverTheEnd | riscv_semantic_functions/solution/rv32i_instructions.cc:189-200 | A word stored at 2^32 − 1 does not wrap |
| Witnesses.StaleByte | other/rv32i_top.cc:57-59 | One turn of a new core over sb x16, 3(x0) at address 0 leaves in the cache a store that memory no longer holds |
| Witnesses.WrittenThenFetched | other/rv32i_top.cc:167-168 | A program that stores its next instruction and runs into it is within the conditions, and fetches what it stored |
| Witnesses.EchoParts | other/rv32i_top.cc:138-188 | From a breakpoint on the program's own ebreak, reached from a new core, Step(3) and the matching run differ |
| Witnesses.RaceReached | other/rv32i_top.cc:112-124 | A new simulator reaches a Halt past its check with a trapped worker, and its write then shows a pc the program has not reached |
| Witnesses.EarlyHaltReached | other/rv32i_top.cc:112-124 | A new simulator comes to where a Halt's request is lost |

## Left out

- Lines 220-228 of `other/rv32i_top.cc`, which clear the flag and start the worker, and lines 246-251, which end it, are one atomic step each. In the source, Wait can delete the notification between the publication of kHalted and Notify.
- `Step` is one atomic step, and so is `Run` up to its write of `run_status_`: a `Halt` that passed its check during an earlier run and writes in the middle of one of them is modelled as writing before or after it.
- The two threads and a `Halt` interleave sequentially consistently; weak-memory effects on the plain fields are not modelled.
- `Wait` and its notification exist in `interleaving.dfy` only; the class has no thread to wait for, so its worker takes the number of turns after which a Halt lands as a parameter.
- Top.RV32ITop.SetSwBreakpoint: what the breakpoint manager answers when the breakpoint exists already is not modelled beyond leaving the state alone.
- Buffers.RiscVState.Allocate: one free set serves all buffer sizes, and a buffer holds one word, because the identity argument does not depend on sizes.
- Buffers.RiscVState.constructor: all 33 registers get their buffers at once, where the source adds x0 to x31 by name afterwards. Only the names are added later.
- Handlers other than the debugger's in the ebreak chain only accept or refuse an address; what else they might do, and the message for an unhandled ebreak, is not modelled.
- Breakpoints replace a four-byte word; compressed breakpoints of the library are not modelled.
- The size of the default (illegal) opcode is not stated in the source and is a parameter. Raising the program error is not modelled; the instruction has no effect.
- CSR instructions are no-ops, and no CSR register or its name is modelled.
- Register-register srl, sra and slt and immediate slti and sltiu are not in the decoder.
- `ReadMemory` and `WriteMemory` as debugger commands: the same loads and stores as the guest's, without invalidation; `StaleCode.StoresOverCachedCode` says what that does to the cache.
- `GetInstruction` and `GetRegisterDataBuffer`, which hand out internals, and `GetRunStatus` and `GetLastHaltReason`.
- StaleCode.StoresOverCachedCode: claims nothing of cached fence, CSR and illegal instructions, whose objects do not determine their words.
- CSR and illegal words and an unaligned pc are outside the manual's run; exceptions for misaligned data accesses, which section 2.6 leaves to the environment, are not modelled.
- Guest addresses wrap at 2^32 when computed; the wrap of 64-bit debugger addresses at 2^64 is not modelled.
- Semihosting and the memory watcher, whose halt requests come from a foreign library. One made during a step-over would have its reason cleared with the breakpoint's.
- Disassembly text, error messages, logging, the ELF loader, the command shell, flags, counter export and the destructor.
