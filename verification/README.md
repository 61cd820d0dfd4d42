# Novium emulator: a verified model

Novium is an instruction-set emulator: sixteen 32-bit registers, eight vector registers of sixteen FP32
lanes, a scratchpad, a main RAM reached by DMA, memory-mapped devices, and around them an MMU, a cache
hierarchy, interconnect fabrics, a guest-code translator and schedulers. Most of its engines come with a
simple meaning they are meant to agree with: a block-cached run loop against a plain interpreter, a TLB
against a page-table walk, timestamps against recency, a lowered program against its guest program. This
project states those agreements in Dafny and proves them for all inputs.

Every engine is modelled twice: once as a function on values, which the theorems are about, and once in
the form the program has, as a class or a loop that changes its state in place, proved equal to the function.

| file | content |
|---|---|
| Words, Isa | machine words, byte stores, instruction fields, encoders, cycle weights |
| Tensor, Tiles | vector add and tile multiply: scalar loops, blocked lowerings, aliasing, when a tile is a product |
| Fabric | the bounded FIFO interconnect |
| Machine, StepFacts, RoundTrips | one step of the core with every exception and the state it leaves; what a step cannot change; stored data comes back |
| Blocks, FastPath, Discipline | the decoded-block cache; replay refines interpretation; criteria for it on the program text |
| Limits, Traps, Overwrites | where it stops doing so: exact guards, and machines beyond them |
| Sessions | refinement over sessions of step, run, run_fast and loading calls |
| Timing, Cycles, Expiry, Draining | profiles change timing only; where every cycle goes; the timer; the AXI queue drains |
| Flags | zero, negative and overflow |
| Emulator | the emulator object itself, with its handlers and run loops |
| Lowering, Simulation, GuestWords | RISC-V words to Novium words, and exactly what that preserves |
| Mmu, Paging, RingTlb, BareMode | the MMU, transparency of its TLB, the ring discipline, the linear map |
| Sv39, Replacement | where the walk is Sv39 and where it is not; where the ring differs from LRU |
| Cache, Lru, Dirty, Hierarchy | LRU caches, refinement and stack inclusion, dirty data, three levels and the memory controller |
| Warps, Cluster | the round-robin warp picker; quantum scheduling of cores |

## How it is modelled

- Words are integers below 2^32 with wrap-around written out; bytes are integers below 256; 64-bit counters
  and clocks are unbounded naturals.
- An exception ends a call with the state it leaves behind and its kind. `Undefined` stands for inputs on
  which the C++ indexes outside an array (register numbers past the register file, a DMA range whose 32-bit
  end wraps); both run loops stop there.
- FP32 addition and multiplication are two uninterpreted operations on bit patterns.
- The run loops take a step or turn budget, since a guest program need not end; theorems hold for every budget.
- `Run` and `FastRun` report `Running` when the budget ends, `Stopped` on HALT or in front of a breakpoint,
  `Threw` on an exception.
- The UART is the sequence of bytes written to it; printing it is not part of this model.

## Where the code differs from its own description

The model follows the code.

- `run_fast` is described as having the same semantics as `run`. It does not take interrupts, keeps replaying
  a block after a trap or after the block was overwritten, decodes ahead, and decodes the scratchpad where the
  bus would read a device. The refinement theorem asks of every step that none of these makes a difference;
  Limits, Traps and Overwrites show that the guards on interrupts, device windows, look-ahead, trap vectors and
  overwritten code are exact.
- The TLB is described as LRU; it is a ring, and evicts a page however recently it was hit. A hit does not look at
  the U bit again.
- The walk is described as Sv39 with enforcement of A and D. Superpage leaves are placed as if they were 4 KiB pages; A, D,
  reserved bits, the reserved encoding W without R, SUM, MXR and satp's mode field are not looked at; physical
  addresses are cut to 32 bits; some faults of stores and fetches are reported as those of loads. Sv39 states the
  exact page tables on which the answer is the architecture's.
- Branch offsets are described as words by the RISC-V lowering, and added as bytes by the handlers; ADDI's
  immediate is zero-extended; JAL becomes an absolute jump; every register-immediate word is lowered as ADDI, every
  load as LW and every store as SW.
- ADD and SUB compute the overflow flag rightly and then clear it, so it is never seen set.
- A DMA_LOAD refused by the fabric is counted twice by the profiler and copied all the same.

## Model

| member | source | states |
|---|---|---|
| FastPath.FastRunRefinesRun | src/emulator.cpp:286-344 | along a run whose steps meet the guards (no interrupt due, pc in no device window, decoding ahead stays in memory and in code lines, a trap does not leave a block in the middle, code lines unmodified) every exit of the block-cached loop, under any budget, is an exit of the plain loop, and whenever the plain loop ends within n steps the fast loop ends within n turns in the same state, devices, counters and exception included |
| FastPath.FastRunIsRun | src/emulator.cpp:293-312 | under the same guards n turns of the fast loop are some number of interpreter steps, at least n while still running, and leave a coherent cache, exceptions included |
| FastPath.TurnIsRun | include/aiasm/translate.h:47-73 | one turn, cached or decoded afresh, is at least one interpreter step and keeps the cache coherent |
| FastPath.ReplayIsRun | src/emulator.cpp:299-309 | replaying a block's words is a run of as many steps as words were executed, stopping at breakpoints, HALT and exceptions alike |
| FastPath.BlockShape | include/aiasm/translate.h:52-70 | a block decoded at an aligned address is one to sixteen consecutive words of one 64-byte line, control flow only at the end, end address and flags to match |
| FastPath.DecodeTotal | include/aiasm/translate.h:55-69 | an aligned decode never runs out of memory in a line that is memory to its end |
| FastPath.DecodeStable | include/aiasm/translate.h:55-69 | decoding depends on the bytes of the lines ahead of it only, so a write elsewhere keeps cached blocks right |
| FastPath.FreshRunRefinesRun | src/emulator.cpp:264-270 | with the empty cache that loading a program leaves, a guarded run that ends within n steps ends the same way within n turns |
| FastPath.VerboseRunIsRun | src/emulator.cpp:298-298 | with logging on, the fast loop is the plain one turn for turn, with no guard at all |
| Discipline.ClosedTextIsDisciplined | src/emulator.cpp:293-312 | if no interrupt can come, every word of whole lines of text leads back into the text, and no step modifies the text, the refinement applies |
| Discipline.WriteFreeTextIsDisciplined | src/emulator.cpp:293-312 | the same from the text alone: closed under control flow and without STORE, STORE_VR and DMA_LOAD words |
| Limits.ReplayedStepIffNoInterrupt | src/emulator.cpp:318-326 | replaying the word at pc equals the interpreter's step exactly when no enabled interrupt is pending |
| Limits.ReplayedStepIffPlainMemory | include/aiasm/bus.h:45-55 | whatever the scratchpad holds, replaying its word at pc equals the interpreter's step, exactly when pc is in no device window |
| Limits.DeviceFetchDiverges | include/aiasm/bus.h:45-55 | at the timer's count register the plain loop executes the count and the fast loop the HALT in the scratchpad below |
| Limits.LookAheadIffReach | include/aiasm/translate.h:55-69 | for every pc and memory size, decoding at pc stays in memory for all contents exactly when memory covers the line's end from an aligned pc, and all thirty-two words, wrapping included, from any other |
| Limits.LookAheadIffWholeLines | include/aiasm/translate.h:55-69 | at aligned addresses decoding ahead never throws where one fetch would not, for all contents, exactly when the scratchpad ends less than a word past a line boundary or covers every address |
| Limits.UnalignedDiverges | include/aiasm/translate.h:55-69 | at an unaligned pc with less than two words left a NOP runs under run, and run_fast throws |
| Limits.StaleBlockDiverges | src/emulator.cpp:299-309 | code that overwrites its successor in its own line halts under run and not under run_fast |
| Limits.TrapInBlockDiverges | src/emulator.cpp:371-381 | with a trap vector set, an illegal word in mid-block leads run to the handler and run_fast past it |
| Traps.TrapInBlockIff | src/emulator.cpp:371-381 | replaying an illegal word and its successor in the line is a run of the interpreter, whatever the successor, exactly when the trap vector is the successor's address or a breakpoint |
| Overwrites.OverwriteInBlockIff | src/emulator.cpp:299-309 | replaying any plain word and its successor in the line is a run of the interpreter, whatever the successor, exactly when the bytes it writes (STORE, STORE_VR or DMA_LOAD) spare the successor or a breakpoint stands between them |
| Sessions.SessionRefines | src/emulator.cpp:286-312 | over any session of step, run, run_fast and loading calls, settings and breakpoints changing between them, that leaves the code lines alone or empties the cache: with some number of plain steps for each fast call the machines and exits are the same |
| Sessions.FreshSessionRefines | src/emulator.cpp:264-270 | the same from the empty cache that construction and loading a program leave |
| StepFacts.ExecuteCsr | src/emulator.cpp:371-395 | an instruction leaves every control register alone unless its opcode is unassigned and a trap vector is set |
| StepFacts.StepCsr | src/emulator.cpp:314-344 | no step changes the trap vector or the enable mask, and none re-enables interrupts |
| StepFacts.AtMostOneInterrupt | src/interrupt.cpp:14-46 | a run of any length takes at most one interrupt, and none if it starts with interrupts disabled |
| RoundTrips.StoreThenLoad | src/emulator.cpp:478-509 | LOAD from where a STORE went gives the stored register, and no other byte changed |
| RoundTrips.SpillThenReload | src/emulator.cpp:522-540 | LOAD_VR after STORE_VR reproduces the sixteen lanes in any register and leaves the others alone |
| RoundTrips.DmaOutAndBack | src/emulator.cpp:584-642 | DMA_STORE and DMA_LOAD of the same block restore the scratchpad, whatever overwrote the block in between |
| Timing.ProfilesAgree | include/aiasm/target.h:12-16 | with interrupts off and the clock registers unread, two machines under any two profiles agree on registers, memories, control registers, UART and exceptions after every number of steps |
| Timing.StepSame | src/emulator.cpp:371-395 | the same for one step, every opcode and exception included |
| Timing.ClockLoadIff | include/aiasm/devices.h:37-45 | loading the count or interrupt register keeps two machines equal exactly when their timers agree there |
| Cycles.CycleConservation | src/emulator.cpp:646-660 | after every completed step of a fresh machine, profiler cycles are the ticked cycles, plus the accumulator below 1000, plus one per refused DMA_LOAD, and the opcode histogram sums to the instruction count |
| Cycles.ConstructedConserves | src/emulator.cpp:22-31 | the same from the constructor, whatever program, data and registers the host puts in |
| Draining.QueueEmptyAfterEveryTick | src/interconnect.cpp:5-24 | from the constructor, after any calls of step, run and run_fast, cut off anywhere, with any settings, and any loading in between: a step or a replayed word that ticks the peripherals leaves no AXI transaction outstanding |
| Draining.OfferDrainable | src/interconnect.cpp:5-16 | every transaction the core issues is due within four cycles of the fabric clock |
| Cycles.TimerExpiries | include/aiasm/devices.h:26-34 | k ticks of a running timer fire as often as the limit fits into count plus 1000 k, with the remainder left in the count |
| Expiry.TimerOverRun | src/emulator.cpp:646-660 | over any run that leaves the timer window alone, count is the remainder of the ticked cycles and the flag is up exactly when a limit's worth has passed |
| Flags.ComputedIsOverflow | src/emulator.cpp:437-466 | what ADD and SUB compute for the overflow flag is true exactly when the signed result does not fit |
| Flags.OverflowFlagIffNone | include/aiasm/registers.h:46-52 | after ADD or SUB zero and negative describe the result, and overflow tells the truth exactly when none occurred |
| Flags.OverflowNeverSeen | include/aiasm/registers.h:46-52 | over runs of both loops from a clear flag, no state shows it set |
| Fabric.FifoConservation | src/interconnect.cpp:5-24 | over every history of offers and ticks, completed followed by pending is exactly what was accepted, in order; pending never exceeds the bound; refused offers are the stalls |
| Fabric.HeadOfLineBlocking | src/interconnect.cpp:17-24 | a tick leaves a non-empty queue unchanged exactly when its head is not due, whatever stands behind it |
| Fabric.Interconnect.IssueTransaction | src/interconnect.cpp:5-16 | the new fabric state, and acceptance exactly while fewer than the bound are pending |
| Fabric.Interconnect.Advance | src/interconnect.cpp:18-24 | the pop loop retires exactly the due prefix |
| Tensor.VecAddedLanes | src/emulator.cpp:542-555 | every lane of vd is the sum of the operands' original lanes, whichever registers coincide, and no other lane changes |
| Tensor.VecAddAvx2 | include/aiasm/host.h:97-107 | two eight-lane blocks in place give that result under every aliasing |
| Tensor.VecAddAvx512 | include/aiasm/host.h:108-111 | one sixteen-lane block in place gives that result under every aliasing |
| Tensor.VecAddNeon | include/aiasm/host.h:112-124 | four four-lane blocks in place give that result under every aliasing |
| Tensor.VecAddScalar | src/emulator.cpp:552-552 | the lane loop in place gives that result under every aliasing |
| Tiles.MatmulScalar | src/emulator.cpp:572-579 | the triple loop writes the cells in row-major order, each from the register file as it is then |
| Tiles.MatmulHost | include/aiasm/host.h:132-160 | the accelerated path gives the same register file as the scalar loops for every tile size and aliasing |
| Tiles.MatmulIsProduct | include/aiasm/host.h:132-160 | with vd distinct from va and vb, cell (i, j) is the k-ordered dot product of the original sources and nothing past the n*n cells changes |
| Tiles.TileIsProductIff | src/emulator.cpp:572-579 | for every unit that counts to seven exactly, as FP32 does: all tiles of size n are products exactly when n is at most one or vd is neither source |
| Tiles.TileIsAlwaysProductIff | src/emulator.cpp:572-579 | the same over all units and contents together |
| Emulator.Emulator.RunLoop | src/emulator.cpp:286-291 | the interpreter loop on the object is the run function, exceptions included |
| Emulator.Emulator.RunFastLoop | src/emulator.cpp:293-312 | the block-cached loop on the object is the fast run function, cache contents and hit counts included |
| Emulator.Emulator.StepOnce | src/emulator.cpp:314-344 | interrupt entry, fetch, execute and ticking in place are one step of the function |
| Emulator.Emulator.ExecuteWord | src/emulator.cpp:371-395 | dispatch, trap or exception, profiling and accumulation, with the state each exception leaves |
| Emulator.Emulator.OpLoad | src/emulator.cpp:478-492 | the transaction is issued before the bus may throw, device reads have their effect, r0 stays zero |
| Emulator.Emulator.OpStore | src/emulator.cpp:494-509 | the transaction is issued before the bus may throw; devices or four bytes of scratchpad change |
| Emulator.Emulator.OpDmaLoad | src/emulator.cpp:584-613 | bounds checked in 32 bits, a refusal profiled, the block copied |
| Emulator.Emulator.OpDmaStore | src/emulator.cpp:615-642 | bounds checked in 32 bits and in the other order, the block copied |
| Emulator.Emulator.LoadProgram | src/emulator.cpp:264-270 | oversized programs are refused with nothing changed; others replace the start of the scratchpad and empty the block cache |
| Emulator.Emulator.SetTarget | src/emulator.cpp:226-229 | a new profile touches no machine state and empties the block cache |
| Emulator.BlockCache.Lookup | include/aiasm/translate.h:47-73 | a cached block is returned unchanged and counted as a hit; otherwise the decode loop's block is kept, or the read fault leaves only a miss |
| Lowering.TranslateBytes | src/decoder.cpp:23-34 | the output is the concatenation of what each whole guest word emits, a NOP where nothing is understood, with the statistics to match |
| Simulation.LoweringSimulates | src/decoder.cpp:76-109 | straight-line ADD, SUB, MUL, ADDI with non-negative immediate, LW and SW over x0..x14: the output takes guest length plus one step per ADDI and ends with the guest's x0..x14 and memory |
| Simulation.SimulateWord | src/decoder.cpp:82-109 | the same for one guest word and the one or two words it became |
| GuestWords.OpImmIff | src/decoder.cpp:90-96 | every register-immediate word over x0..x14 keeps its meaning in all states exactly when rd is x0 or it is listed: ADDI with an immediate not negative, XORI, ORI, SLLI and SRLI with zero, and on x0 a few more |
| GuestWords.AccessIff | src/decoder.cpp:97-109 | every load and store over x0..x14 keeps its meaning in all states with the access in memory exactly when it is of a whole word |
| Simulation.AddiIffNonNegative | src/decoder.cpp:90-96 | the ADDI pair has the guest's effect exactly when the immediate is not negative or rd is x0 |
| Simulation.BranchIffNextWord | src/decoder.cpp:111-118 | a lowered branch at the same address lands where the guest's does exactly when it branches to the next word |
| Simulation.JumpIffAtOrigin | src/decoder.cpp:120-125 | a lowered JAL reaches the guest's target exactly at address 0, or at 2^26 for a backward jump |
| Isa.RTypeFields | include/aiasm/isa.h:95-101 | the five fields of an encoded R-type word are the ones it was encoded from |
| Isa.ITypeFields | include/aiasm/isa.h:103-108 | the four fields of an encoded I-type word are the ones it was encoded from |
| Mmu.MmuUnit.TranslateVa | src/mmu.cpp:5-26 | lookup, then linear map or walk, with hit counts, fills and fault registers |
| Mmu.MmuUnit.WalkTables | src/mmu.cpp:47-81 | the level loop finds the leaf, the invalid entry or the slot outside memory that the recursive walk finds |
| Mmu.MmuUnit.TlbLookup | src/mmu.cpp:28-38 | first valid entry for page and ASID decides; a permission miss counts as neither hit nor miss |
| Mmu.MmuUnit.TlbFlush | src/mmu.cpp:83-83 | every entry invalid and the ring back at its start |
| Mmu.MmuUnit.TlbFlushVa | src/mmu.cpp:84-87 | exactly the entries of the page become invalid, in every address space |
| Mmu.MmuUnit.MapIdentity | src/mmu.cpp:89-93 | the pages are appended in order, with their numbers wrapping at 32 bits |
| Paging.TlbTransparent | src/mmu.cpp:5-81 | from a cold TLB, after any translations, flushes, switches between spaces with distinct ASIDs, changes of privilege (to user mode with only user pages resident) and memory writes that miss the slots behind resident entries, a single-purpose translation gives the address, fault and fault registers of a walk alone; no page of a space is resident twice |
| Paging.TranslateKeeps | src/mmu.cpp:28-81 | every translation keeps each entry equal to what its page tables say and each page resident at most once |
| Paging.DescendFrame | src/mmu.cpp:52-77 | a write outside the slots a walk reads does not change what the walk finds |
| Paging.DoublePurposeIffWritable | src/mmu.cpp:6-8 | an access that writes and fetches at once agrees with the walk on a resident executable page exactly when the page is writable |
| Paging.UserHitIffUserPage | src/mmu.cpp:28-38 | in user mode, on a resident page that grants the access, TLB and walk agree exactly when it is a user page |
| Sv39.WalkIsSv39Iff | src/mmu.cpp:40-81 | for a satp that selects Sv39 the walk answers as sections 4.3.2 and 4.4 of the privileged architecture do, address and fault cause, on exactly the page tables, privilege and access that conform |
| Sv39.PermittedIsSv39Iff | src/mmu.cpp:58-73 | an access the walk permits is translated as Sv39 translates it exactly when pointers have no reserved bits, and the leaf has no reserved bit or encoding, A, D for a store, is no user page from supervisor mode without SUM, is aligned, below 4 GiB and addressed in its first 4 KiB |
| Sv39.StoreMustFault | src/mmu.cpp:57-67 | stores through a page with V and W, and through one with V, R and W, succeed where Sv39 raises a store page fault |
| RingTlb.RingAlways | src/mmu.cpp:68-87 | in every mode, after any events, slot k mod 32 holds fill k as long as it is among the last 32 since a full flush |
| RingTlb.ResidentIsRecent | src/mmu.cpp:68-73 | every valid entry is one of the last 32 fills |
| RingTlb.FoundIffRecent | src/mmu.cpp:28-38 | the latest unflushed fill of a page is found under its key exactly while at most 31 more fills have followed |
| RingTlb.RingFromNew | src/mmu.cpp:68-87 | from construction on, in every mode and after any events, nothing valid is resident but unflushed entries among the last 32 fills |
| Replacement.TlbIsRing | src/mmu.cpp:28-38 | in paged mode the fills of permitted uses are the pages not among the last 32 fills |
| Replacement.SameVictimIff | src/mmu.cpp:72-72 | with the same 32 pages resident, the ring and LRU evict the same page next exactly when the page filled first was last used before all the others |
| Replacement.FreshHitEvicted | src/mmu.cpp:72-72 | a page hit just before a miss is evicted if it was filled first, while it stands second in order of use |
| BareMode.BareModeCorrect | src/mmu.cpp:9-24 | with the MMU disabled or satp zero at each access, after any interleaving of maps, accesses, flushes and changes of mode, a single-purpose translation answers as the first mapped page does, or with the address itself |
| Lru.LruRefinement | src/cache.cpp:7-28 | after any trace of accesses and flushes an access hits exactly when its line is among the first associativity-many of its set's recency list since the last flush |
| Lru.TraceRefines | src/cache.cpp:11-28 | the ways of each set hold a prefix of that list, in timestamp order, and the unused ways are invalid and older |
| Lru.StackInclusion | src/cache.cpp:11-28 | with equal lines and sets, whatever hits in the cache of fewer ways hits in that of more, after every trace |
| Lru.LargerNeverMissesMore | src/cache.cpp:11-28 | on every trace the cache of more ways has at least the hits and at most the misses |
| Dirty.DirtyConservation | src/cache.cpp:17-32 | writebacks, lines still dirty and lines dropped dirty by flushes add up to the clean-to-dirty transitions; writebacks exceed neither writes nor misses |
| Dirty.DirtyBitMeaning | src/cache.cpp:13-27 | a way is dirty exactly when it is valid and its line was written by its last fill or by an access since |
| Cache.CacheUnit.AccessLine | src/cache.cpp:7-27 | search, touch or evict in place, with hit, stall and statistics |
| Cache.CacheUnit.FlushAll | src/cache.cpp:28-28 | every line invalid and clean, timestamps and statistics kept |
| Hierarchy.HierarchyAccounting | src/cache.cpp:30-48 | from zero counters each level is asked once per miss of the one above, the controller once per L3 miss, and the returned stalls sum to the counters times their latencies |
| Hierarchy.CacheHierarchy.AccessAll | src/cache.cpp:38-48 | levels asked in turn, stalls added, a level without sets repeating the previous stall |
| Warps.ReadyWarpIsPicked | src/parallel.cpp:5-11 | a warp ready at as many consecutive calls as there are warps is picked by one of them, whatever happens to the others |
| Warps.NobodyIffNoneReady | src/parallel.cpp:5-11 | a call returns -1 exactly when no warp is ready |
| Warps.LastInTurn | src/parallel.cpp:5-11 | with all ready the calls go round in order, so the bound is reached |
| Warps.WarpScheduler.ScheduleNext | src/parallel.cpp:5-11 | the search loop returns the first ready warp from the start position on and moves the start past it |
| Cluster.RoundsAreSolo | src/cluster.cpp:25-41 | r rounds complete exactly when every core by itself completes r quanta of steps, and then each core has taken exactly those or stands at its HALT |
| Cluster.FinalStateIndependent | src/cluster.cpp:25-41 | after any completed rounds of two clusters, a core halted in both is in the same state, whatever the quanta, the other cores and its position |
| Cluster.ClockConservation | include/aiasm/deterministic.h:28-36 | the global clock advances by exactly the cycles the cores spent and by exactly what its slots advanced |
| Cluster.RunIsRounds | src/cluster.cpp:25-41 | the conditional loop runs some number of whole rounds, ending when all have halted, the budget is used or the fuel is out |
| Cluster.ClusterUnit.RunCluster | src/cluster.cpp:25-41 | the nested loops in place are that function, an exception of one core ending the round where it occurred |

## Left out

- FastPath.FastRunRefinesRun: the guards are sufficient, not necessary; a run may break one without the two loops parting, for example by writing to a code line that is never executed again, so the if-and-only-ifs in Limits, Traps and Overwrites are about one step or block and all memory contents.
- Emulator.Emulator.RunLoop: takes a step budget, because the C++ loop need not end; likewise RunFastLoop and Cluster.ClusterUnit.RunCluster.
- Sv39.WalkIsSv39Iff: for satp mode 8 and RAM of at most 4 GiB; the MMU walks for every non-zero satp, whatever its mode, and mode 0 and the longer modes are not compared.
- GuestWords.OpImmIff: words over x0..x14, because the other guest registers have no register of their own; likewise GuestWords.AccessIff.
- Simulation.LoweringSimulates: straight-line code only, because branches and jumps change meaning when lowered, as the if-and-only-if lemmas beside it show.
- Cluster.RoundsAreSolo: cores are values, not shared objects, so cores that communicate through the shared window at 0x80000000 are not covered; a quantum of zero, on which the engine divides by zero, is not excluded because the engine's return value is not modelled.
- Cluster::run_fast, IPIs, TLB shootdown and snooping: no protocol is implemented behind them.
- Emulator::reset: its state is the constructor's up to the timer and the UART, which it leaves alone.
- The emulator's MMU-on paths: fetch copies from an unchecked physical address there, so the core is modelled with the MMU off; the MMU has its own model.
- The fabrics pcie, cxi and the default interconnect: the core only ticks them; pcie stands for all three.
- Interrupt return, CSR instructions and delegation: no opcode reaches them.
- Wrap-around of 64-bit counters, timestamps and clocks, and of the 32-bit stall sum: unbounded naturals instead.
- IEEE-754 rounding and fused multiply-add contraction by the compiler: FP32 operations are uninterpreted.
- The ARM64, PTX and microcode front ends and the source-language front end: pattern matching without a meaning to preserve.
- Verbose logging, reports, dumps, traces, checkpoints, debugger single-step flag, pipeline occupancy counters, systolic array counters: input/output or plain counters.
- MESI states and bank groups: present as configuration, used by nothing.
