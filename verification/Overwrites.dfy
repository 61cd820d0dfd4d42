/** The guard on self-modifying code is exact: a word in mid-block is replayed with its successor as the plain loop
    executes the two, whatever the successor, exactly when it writes to no byte of it or a breakpoint stands
    between them. */
module Overwrites {
  import opened Words
  import opened Isa
  import opened Tensor
  import opened Machine
  import opened Blocks
  import opened StepFacts
  import opened Cycles
  import opened FastPath
  import opened Limits
  import opened Traps

  // ---------------------------------------------------------------- what a word writes

  datatype Region = Region(at: nat, bytes: seq<byte>)

  const NOTHING := Region(0, [])

  /** The bytes of the scratchpad that executing `raw` replaces: a STORE outside the device windows, a STORE_VR or a
      DMA_LOAD, if it completes. */
  function Written(m: Machine, raw: word): Region {
    match Op(raw)
    case Store => WrittenByStore(m, raw)
    case StoreVr => WrittenBySpill(m, raw)
    case DmaLoad => WrittenByDma(m, raw)
    case _ => NOTHING
  }

  function WrittenByStore(m: Machine, raw: word): Region {
    if Ra(raw) >= NUM_GPR || Rd(raw) >= NUM_GPR then NOTHING
    else
      var addr := Effective(m, raw);
      if InTimer(addr) || InUart(addr) || addr + 4 > |m.a.mem| then NOTHING
      else Region(addr, Bytes4(ReadGpr(m.a.gpr, Rd(raw))))
  }

  function WrittenBySpill(m: Machine, raw: word): Region {
    if Ra(raw) >= NUM_GPR || Rd(raw) >= NUM_VR then NOTHING
    else
      var addr := Effective(m, raw);
      if addr + VR_BYTE_SIZE > |m.a.mem| then NOTHING else Region(addr, LaneBytes(m.a.vr, Rd(raw)))
  }

  function WrittenByDma(m: Machine, raw: word): Region {
    if Ra(raw) >= NUM_GPR || Rd(raw) >= NUM_GPR then NOTHING
    else
      var dest, src, bytes := ReadGpr(m.a.gpr, Rd(raw)), ReadGpr(m.a.gpr, Ra(raw)), Func(raw);
      if dest + bytes > |m.a.mem| || src + bytes > |m.a.ram| then NOTHING
      else Region(dest, m.a.ram[src..src + bytes])
  }

  /** Completed handlers replace exactly those bytes, and if there are any, the handler completes. */
  predicate Writes(m: Machine, h: Handled, w: Region) {
    && w.at + |w.bytes| <= |m.a.mem| && (w.bytes != [] ==> h.Done?)
    && (h.Done? ==> h.m.a.mem == Splice(m.a.mem, w.at, w.bytes))
  }

  lemma EmptySplice(mem: seq<byte>)
    ensures Splice(mem, 0, []) == mem
  {
  }

  lemma StoreWrites(m: Machine, raw: word)
    ensures Writes(m, ExecStore(m, raw), WrittenByStore(m, raw))
  {
    EmptySplice(m.a.mem);
    hide Ra, Rd, Effective, ReadGpr, Bytes4, Splice, Wrap;
  }

  lemma SpillWrites(m: Machine, raw: word)
    ensures Writes(m, ExecStoreVr(m, raw), WrittenBySpill(m, raw))
  {
    EmptySplice(m.a.mem);
    hide Ra, Rd, Effective, ReadGpr, LaneBytes, Splice, Wrap;
  }

  lemma DmaWrites(c: Config, m: Machine, raw: word)
    ensures Writes(m, ExecDmaLoad(c, m, raw), WrittenByDma(m, raw))
  {
    EmptySplice(m.a.mem);
    hide Ra, Rd, Func, ReadGpr, Splice, Record, ProfileWeight;
    if Ra(raw) < NUM_GPR && Rd(raw) < NUM_GPR {
      WrapShrinks(ReadGpr(m.a.gpr, Rd(raw)) + Func(raw));
      WrapShrinks(ReadGpr(m.a.gpr, Ra(raw)) + Func(raw));
    }
    hide Wrap;
  }

  lemma WrapShrinks(x: nat)
    ensures Wrap(x) <= x
  {
  }

  lemma HandleWrites(c: Config, m: Machine, raw: word)
    requires !Op(raw).Unassigned?
    ensures Writes(m, Handle(c, m, raw), Written(m, raw))
  {
    hide ExecStore, ExecStoreVr, ExecDmaLoad, ExecLoad, ExecAlu, ExecMov, ExecMovi, ExecLoadVr, ExecVecAdd, ExecMatmul;
    hide ExecJump, ExecBranch, ExecDmaStore, WrittenByStore, WrittenBySpill, WrittenByDma, Splice, OpcodeOf, CycleWeight;
    StoreWrites(m, raw);
    SpillWrites(m, raw);
    DmaWrites(c, m, raw);
    if !MayWrite(raw) {
      EmptySplice(m.a.mem);
      HandleKeepsMem(c, m, raw);
    }
  }

  lemma IssueWrites(c: Config, m: Machine, raw: word)
    requires !Op(raw).Unassigned?
    ensures var w, out := Written(m, raw), Issue(c, m, raw);
      && w.at + |w.bytes| <= |m.a.mem| && (w.bytes != [] ==> out.Next?)
      && (out.Next? ==> out.m.a.mem == Splice(m.a.mem, w.at, w.bytes))
  {
    HandleWrites(c, Advance(m), raw);
    assert Written(Advance(m), raw) == Written(m, raw);
    hide Handle, Written, TickPeripherals, Splice;
  }

  // ---------------------------------------------------------------- a word and its successor

  /** The machine stands in mid-line, in plain memory, interrupts off, at a word that is no control flow. */
  predicate AtPlainWord(c: Config, m: Machine, first: word) {
    && !AtRest(c, m) && !m.a.csr.mie && !InTimer(m.a.pc) && !InUart(m.a.pc)
    && m.a.pc % 4 == 0 && m.a.pc % 64 != 60 && m.a.pc + 8 <= |m.a.mem| && m.a.pc + 8 < TWO32
    && Read32(m.a.mem, m.a.pc) == first && !Op(first).Unassigned? && !EndsBlock(first)
  }

  lemma PlainFacts(c: Config, m: Machine, first: word)
    requires AtPlainWord(c, m, first)
    ensures m.a.pc + 8 <= |m.a.mem| && m.a.pc % 4 == 0 && m.a.pc % 64 != 60 && !InTimer(m.a.pc) && !InUart(m.a.pc)
    ensures !Op(first).Unassigned? && !EndsBlock(first)
  {
  }

  /** No byte of the word after pc is written. */
  predicate Spares(w: Region, pc: nat) {
    w.bytes == [] || w.at + |w.bytes| <= pc + 4 || pc + 8 <= w.at
  }

  /** Executing the first word: a step, to the word after it, leaving a trace. */
  lemma FirstStep(c: Config, m: Machine, first: word, next: word)
    requires AtPlainWord(c, m, first)
    ensures var m0, out := Patched(m, next), Issue(c, Patched(m, next), first);
      && !AtRest(c, m0) && m0.a.mem == Write32(m.a.mem, m.a.pc + 4, next) && Written(m0, first) == Written(m, first)
      && Step(c, m0) == out
      && (out.Next? ==> out.m.a.pc == m.a.pc + 4 && !out.m.a.halt && !out.m.a.csr.mie && Trace(out.m) > Trace(m0)
                        && PendingInterrupt(out.m).NoInterrupt?)
  {
    PatchedStep(c, m, first, next);
    hide Step, Issue, Trace, Read32, Write32, EndsBlock, Op, AtPlainWord, Written;
    var m0 := Patched(m, next);
    if Issue(c, m0, first).Next? {
      IssueFrame(c, m0, first);
      HaltTells(c, m0, first);
      IssueTrace(c, m0, first);
    }
  }

  lemma PatchedStep(c: Config, m: Machine, first: word, next: word)
    requires AtPlainWord(c, m, first)
    ensures m.a.pc + 8 <= |m.a.mem| && Wrap(m.a.pc + 4) == m.a.pc + 4
    ensures !Op(first).Halt? && !Op(first).Unassigned? && !EndsBlock(first)
    ensures var m0 := Patched(m, next);
      && !AtRest(c, m0) && !m0.a.csr.mie && m0.a.mem == Write32(m.a.mem, m.a.pc + 4, next)
      && m0.a.pc == m.a.pc && Written(m0, first) == Written(m, first)
      && Step(c, m0) == Issue(c, m0, first)
  {
    SamePatch(m, first, next);
    WrapIs(m.a.pc + 4, 0);
    EndsBlockOpcodes(first);
    hide Read32, Write32, EndsBlock, OpcodeOf, Wrap, Issue, Written;
    StepIsIssue(c, Patched(m, next));
  }

  /** The patch touches neither the word at pc nor what it writes. */
  lemma SamePatch(m: Machine, first: word, next: word)
    requires m.a.pc + 8 <= |m.a.mem|
    ensures Read32(Patched(m, next).a.mem, m.a.pc) == Read32(m.a.mem, m.a.pc)
    ensures Written(Patched(m, next), first) == Written(m, first)
  {
    hide Read32, Op, ReadGpr, Effective, LaneBytes, Bytes4, Rd, Ra, Func;
    if Ra(first) < NUM_GPR {
      SameEffective(m, first, next);
    }
    ReadFrame(m.a.mem, Patched(m, next).a.mem, m.a.pc);
  }

  lemma SameEffective(m: Machine, first: word, next: word)
    requires m.a.pc + 8 <= |m.a.mem| && Ra(first) < NUM_GPR
    ensures Effective(Patched(m, next), first) == Effective(m, first)
  {
    hide Ra;
  }

  /** A word written over in part only is not the word replayed; one left alone is. */
  lemma SparedWord(mem: seq<byte>, pc: nat, next: word, w: Region)
    requires pc + 8 <= |mem| && w.at + |w.bytes| <= |mem| && Spares(w, pc)
    ensures Read32(Splice(Write32(mem, pc + 4, next), w.at, w.bytes), pc + 4) == next
  {
    var was := Write32(mem, pc + 4, next);
    ReadOverWrite(mem, pc + 4, next);
    hide Read32, Write32;
    ReadFrame(was, Splice(was, w.at, w.bytes), pc + 4);
  }

  lemma SparedAgrees(c: Config, m: Machine, first: word, next: word)
    requires AtPlainWord(c, m, first) && (Spares(Written(m, first), m.a.pc) || m.a.pc + 4 in c.breakpoints)
    ensures Interprets(c, Patched(m, next), ExitOf(c, Replay(c, Patched(m, next), [first, next])))
  {
    hide Step, Issue, Read32, Write32, Splice, Written, EndsBlock, Op, Trace, Patched, AtPlainWord, Spares, Replay, Run;
    hide InTimer, InUart, PendingInterrupt;
    PlainFacts(c, m, first);
    var m0 := Patched(m, next);
    FirstStep(c, m, first, next);
    IssueWrites(c, m0, first);
    RunOne(c, m0);
    if Issue(c, m0, first).Next? {
      var m1 := Issue(c, m0, first).m;
      ReplayTwo(c, m0, m1, [first, next]);
      if !AtRest(c, m1) {
        SparedWord(m.a.mem, m.a.pc, next, Written(m, first));
        WindowLines(m.a.pc);
        StepIsIssue(c, m1);
        RunOne(c, m1);
        RunCompose(c, m0, 1, 1);
        assert Run(c, m0, 2) == ExitOf(c, Replay(c, m0, [first, next]));
      } else {
        assert Run(c, m0, 1) == ExitOf(c, Replay(c, m0, [first, next]));
      }
    } else {
      ReplayThrows(c, m0, [first, next]);
      assert Run(c, m0, 1) == ExitOf(c, Replay(c, m0, [first, next]));
    }
  }

  lemma ReplayThrows(c: Config, m: Machine, ops: seq<word>)
    requires ops != [] && !AtRest(c, m) && Issue(c, m, ops[0]).Thrown?
    ensures Replay(c, m, ops) == Issue(c, m, ops[0])
  {
    hide Issue;
  }

  // ---------------------------------------------------------------- words that tell

  /** JMP to an address of which byte b, below the third, is x and the others are zero. */
  function Jump(b: nat, x: byte): word
    requires b < 3
  {
    0x800_0000 + if b == 0 then x else if b == 1 then 0x100 * x else 0x1_0000 * x
  }

  /** NOP, HALT and JMP each complete, recording one instruction. */
  lemma ShortWord(c: Config, m: Machine, raw: word)
    requires raw == 0 || raw == HALT_WORD || Op(raw).Jmp?
    ensures Issue(c, m, raw).Next? && Trace(Issue(c, m, raw).m) == Trace(m) + 1
    ensures Op(raw).Jmp? ==> Issue(c, m, raw).m.a.pc == Target(raw)
  {
    TickBooks(Execute(c, Advance(m), raw).m.t);
    hide TickPeripherals, Target;
  }

  /** If such a word is replayed as the plain loop goes on, then the word now in memory does what it does. */
  lemma AgreeingWord(c: Config, m: Machine, first: word, next: word)
    requires AtPlainWord(c, m, first) && Issue(c, Patched(m, next), first).Next? && m.a.pc + 4 !in c.breakpoints
    requires next == 0 || next == HALT_WORD || Op(next).Jmp?
    requires Interprets(c, Patched(m, next), ExitOf(c, Replay(c, Patched(m, next), [first, next])))
    ensures var m1 := Issue(c, Patched(m, next), first).m; Step(c, m1) == Issue(c, m1, next)
  {
    var m0 := Patched(m, next);
    FirstStep(c, m, first, next);
    hide Step, Issue, Trace, Patched, Replay, EndsBlock, Run, OpcodeOf;
    var m1 := Issue(c, m0, first).m;
    ReplayTwo(c, m0, m1, [first, next]);
    ShortWord(c, m1, next);
    var steps: nat :| Run(c, m0, steps) == ExitOf(c, Replay(c, m0, [first, next]));
    SecondStep(c, m0, m1, Issue(c, m1, next).m, steps);
  }

  // ---------------------------------------------------------------- words written over

  /** A byte after the write: the one written there, if any, else the one that was there. */
  function ByteLeft(w: Region, at: nat, was: byte): byte {
    if w.at <= at < w.at + |w.bytes| then w.bytes[at - w.at] else was
  }

  /** The memory the plain loop goes on with after the first word. */
  lemma AfterFirst(c: Config, m: Machine, first: word, next: word)
    requires AtPlainWord(c, m, first) && Written(m, first).bytes != []
    ensures m.a.pc + 8 <= |m.a.mem| && Written(m, first).at + |Written(m, first).bytes| <= |m.a.mem|
    ensures var m1, w := Issue(c, Patched(m, next), first).m, Written(m, first);
      && Issue(c, Patched(m, next), first).Next? && m1.a.pc == m.a.pc + 4
      && m1.a.mem == Splice(Write32(m.a.mem, m.a.pc + 4, next), w.at, w.bytes)
      && !m1.a.halt && !m1.a.csr.mie && PendingInterrupt(m1).NoInterrupt? && !InTimer(m1.a.pc) && !InUart(m1.a.pc)
  {
    hide Issue, Step, Trace, Patched, Written, Read32, Write32, Splice, EndsBlock, Op, AtPlainWord, AtRest;
    hide PendingInterrupt, InTimer, InUart;
    PlainFacts(c, m, first);
    FirstStep(c, m, first, next);
    IssueWrites(c, Patched(m, next), first);
    WindowLines(m.a.pc);
  }

  lemma SplicedByte(mem: seq<byte>, at: nat, next: word, w: Region, k: nat)
    requires at + 4 <= |mem| && w.at + |w.bytes| <= |mem| && k < 4
    ensures Splice(Write32(mem, at, next), w.at, w.bytes)[at + k] == ByteLeft(w, at + k, Bytes4(next)[k])
  {
    hide Bytes4;
  }

  /** Byte k of the word it fetches: the successor's, unless written. */
  lemma FetchedByte(c: Config, m: Machine, first: word, next: word, k: nat)
    requires AtPlainWord(c, m, first) && Written(m, first).bytes != [] && k < 4
    ensures var m1 := Issue(c, Patched(m, next), first).m;
      && |m1.a.mem| == |m.a.mem| && m.a.pc + 8 <= |m.a.mem|
      && m1.a.mem[m.a.pc + 4 + k] == ByteLeft(Written(m, first), m.a.pc + 4 + k, Bytes4(next)[k])
  {
    hide Issue, Patched, Read32, Written, Bytes4, OpcodeOf, PendingInterrupt, InTimer, InUart, AtPlainWord, EndsBlock;
    hide ByteLeft, Splice, Write32;
    AfterFirst(c, m, first, next);
    SplicedByte(m.a.mem, m.a.pc + 4, next, Written(m, first), k);
  }

  function Low24(b0: int, b1: int, b2: int): int {
    b0 + 0x100 * b1 + 0x1_0000 * b2
  }

  lemma TopByte(mem: seq<byte>, at: nat)
    requires at + 4 <= |mem|
    ensures OpField(Read32(mem, at)) == mem[at + 3] / 4
  {
    var low, top: int := Low24(mem[at], mem[at + 1], mem[at + 2]), mem[at + 3];
    var q, r := top / 4, top % 4;
    assert Read32(mem, at) == 0x100_0000 * top + low && 0 <= low < 0x100_0000 && top == 4 * q + r;
    Quotient(Read32(mem, at), 0x400_0000, q, 0x100_0000 * r + low);
  }

  /** If the top byte is written, the opcode fetched next does not depend on the successor. */
  lemma SameOpcode(c: Config, m: Machine, first: word, x: word, y: word)
    requires AtPlainWord(c, m, first)
    requires var w := Written(m, first); w.at <= m.a.pc + 7 < w.at + |w.bytes|
    ensures var m0, m1 := Issue(c, Patched(m, x), first).m, Issue(c, Patched(m, y), first).m;
      && m.a.pc + 8 <= |m0.a.mem| && m.a.pc + 8 <= |m1.a.mem|
      && Op(Read32(m0.a.mem, m.a.pc + 4)) == Op(Read32(m1.a.mem, m.a.pc + 4))
  {
    hide Issue, Patched, Read32, Written, Bytes4, OpcodeOf, PendingInterrupt, OpField, InTimer, InUart, AtPlainWord;
    hide EndsBlock;
    PlainFacts(c, m, first);
    FetchedByte(c, m, first, x, 3);
    FetchedByte(c, m, first, y, 3);
    var m0, m1 := Issue(c, Patched(m, x), first).m, Issue(c, Patched(m, y), first).m;
    assert m0.a.mem[m.a.pc + 4 + 3] == m1.a.mem[m.a.pc + 4 + 3];
    TopByte(m0.a.mem, m.a.pc + 4);
    TopByte(m1.a.mem, m.a.pc + 4);
  }

  /** Agreement on a NOP or HALT successor makes the word in memory halt exactly if it is the HALT. */
  lemma AgreeingHalts(c: Config, m: Machine, first: word, next: word)
    requires AtPlainWord(c, m, first) && Written(m, first).bytes != [] && m.a.pc + 4 !in c.breakpoints
    requires next == 0 || next == HALT_WORD
    requires Interprets(c, Patched(m, next), ExitOf(c, Replay(c, Patched(m, next), [first, next])))
    ensures var m1 := Issue(c, Patched(m, next), first).m;
      m.a.pc + 8 <= |m1.a.mem| && (Op(Read32(m1.a.mem, m.a.pc + 4)).Halt? <==> next == HALT_WORD)
  {
    NopAndHalt();
    hide Interprets, Replay, Issue, Step, Patched, Read32, Written, Op, EndsBlock, AtPlainWord, Splice, Write32;
    AfterFirst(c, m, first, next);
    AgreeingWord(c, m, first, next);
    var m1 := Issue(c, Patched(m, next), first).m;
    StepIsIssue(c, m1);
    HaltTells(c, m1, next);
    HaltTells(c, m1, Read32(m1.a.mem, m1.a.pc));
  }

  /** The top byte, and with it the opcode, is written: a NOP and a HALT become the same opcode. */
  lemma TopOverwritten(c: Config, m: Machine, first: word)
    requires AtPlainWord(c, m, first) && m.a.pc + 4 !in c.breakpoints
    requires var w := Written(m, first); w.at <= m.a.pc + 7 < w.at + |w.bytes|
    ensures exists next: word ::
      !Interprets(c, Patched(m, next), ExitOf(c, Replay(c, Patched(m, next), [first, next])))
  {
    var zero: word, halting: word := 0, HALT_WORD;
    SameOpcode(c, m, first, zero, halting);
    assert Written(m, first).bytes != [];
    hide Interprets, Replay, Issue, Patched, Read32, Written, Op, AtPlainWord;
    if Interprets(c, Patched(m, zero), ExitOf(c, Replay(c, Patched(m, zero), [first, zero]))) {
      AgreeingHalts(c, m, first, zero);
    }
    if Interprets(c, Patched(m, halting), ExitOf(c, Replay(c, Patched(m, halting), [first, halting]))) {
      AgreeingHalts(c, m, first, halting);
    }
  }

  lemma NopAndHalt()
    ensures Op(HALT_WORD).Halt? && Op(0).Nop?
  {
  }

  /** Bytes of a jump, and where it goes. */
  lemma JumpBytes(b: nat, x: byte)
    requires b < 3
    ensures Op(Jump(b, x)).Jmp?
    ensures forall k :: 0 <= k < 4 ==> Bytes4(Jump(b, x))[k] == if k == 3 then 8 else if k == b then x else 0
  {
    var v := Jump(b, x);
    if b == 0 {
      Quotient(v, 0x100, 0x8_0000, x);
    } else {
      Quotient(v, 0x100, 0x8_0000 + if b == 1 then x else 0x100 * x, 0);
    }
    Quotient(v / 0x100, 0x100, 0x800 + if b == 2 then x else 0, if b == 1 then x else 0);
    Quotient(v, 0x1_0000, 0x800 + if b == 2 then x else 0, if b == 0 then x else if b == 1 then 0x100 * x else 0);
    Quotient(v / 0x1_0000, 0x100, 8, if b == 2 then x else 0);
    Quotient(v, 0x100_0000, 8, v - 0x800_0000);
    Quotient(v, 0x400_0000, 2, v - 0x800_0000);
  }

  lemma JumpTarget(mem: seq<byte>, at: nat)
    requires at + 4 <= |mem| && mem[at + 3] == 8
    ensures Op(Read32(mem, at)).Jmp?
    ensures Target(Read32(mem, at)) == Low24(mem[at], mem[at + 1], mem[at + 2])
  {
    var low := Low24(mem[at], mem[at + 1], mem[at + 2]);
    assert Read32(mem, at) == 0x800_0000 + low && 0 <= low < 0x100_0000;
    Quotient(Read32(mem, at), 0x400_0000, 2, low);
  }

  /** Three bytes are determined by the number they make. */
  lemma DigitsDiffer(x0: byte, x1: byte, x2: byte, y0: byte, y1: byte, y2: byte)
    requires x0 != y0 || x1 != y1 || x2 != y2
    ensures Low24(x0, x1, x2) != Low24(y0, y1, y2)
  {
  }

  /** Agreement on a jump as successor makes the word in memory a jump to the same place, if it is a jump. */
  lemma AgreeingJumps(c: Config, m: Machine, first: word, next: word)
    requires AtPlainWord(c, m, first) && Written(m, first).bytes != [] && m.a.pc + 4 !in c.breakpoints && Op(next).Jmp?
    requires Interprets(c, Patched(m, next), ExitOf(c, Replay(c, Patched(m, next), [first, next])))
    ensures var m1 := Issue(c, Patched(m, next), first).m;
      && m.a.pc + 8 <= |m1.a.mem|
      && var now := Read32(m1.a.mem, m.a.pc + 4); Op(now).Jmp? ==> Target(now) == Target(next)
  {
    hide Interprets, Replay, Issue, Step, Patched, Read32, Written, OpcodeOf, EndsBlock, AtPlainWord, Splice, Write32;
    hide Target, Trace;
    AfterFirst(c, m, first, next);
    AgreeingWord(c, m, first, next);
    var m1 := Issue(c, Patched(m, next), first).m;
    StepIsIssue(c, m1);
    ShortWord(c, m1, next);
    if Op(Read32(m1.a.mem, m1.a.pc)).Jmp? {
      ShortWord(c, m1, Read32(m1.a.mem, m1.a.pc));
    }
  }

  /** The word left over a jump of which byte b is written is a jump elsewhere. */
  lemma JumpElsewhere(mem: seq<byte>, at: nat, b: nat, x: byte)
    requires b < 3 && at + 4 <= |mem| && mem[at + 3] == 8 && mem[at + b] != x
    ensures Op(Read32(mem, at)).Jmp? && Target(Read32(mem, at)) != Target(Jump(b, x))
  {
    JumpTarget(mem, at);
    NextTarget(b, x);
    hide Target, Jump, Read32, OpcodeOf, Low24;
    DigitsDiffer(mem[at], mem[at + 1], mem[at + 2],
                 if b == 0 then x else 0, if b == 1 then x else 0, if b == 2 then x else 0);
  }

  /** Only lower bytes are written: a JMP whose target has another byte there goes elsewhere. */
  lemma LowOverwritten(c: Config, m: Machine, first: word, b: nat)
    requires AtPlainWord(c, m, first) && m.a.pc + 4 !in c.breakpoints && b < 3
    requires var w := Written(m, first);
      w.at <= m.a.pc + 4 + b < w.at + |w.bytes| && !(w.at <= m.a.pc + 7 < w.at + |w.bytes|)
    ensures exists next: word ::
      !Interprets(c, Patched(m, next), ExitOf(c, Replay(c, Patched(m, next), [first, next])))
  {
    hide Interprets, Replay, Issue, Patched, Written, Bytes4, Read32, OpcodeOf, Jump, Target, EndsBlock;
    hide AtPlainWord, PendingInterrupt, InTimer, InUart;
    PlainFacts(c, m, first);
    var w, at := Written(m, first), m.a.pc + 4;
    var x: byte := if w.bytes[at + b - w.at] == 0 then 1 else 0;
    var next := Jump(b, x);
    FetchedByte(c, m, first, next, 3);
    FetchedByte(c, m, first, next, b);
    JumpBytes(b, x);
    var mem := Issue(c, Patched(m, next), first).m.a.mem;
    assert mem[m.a.pc + 4 + 3] == 8 && mem[m.a.pc + 4 + b] != x;
    JumpElsewhere(mem, at, b, x);
    if Interprets(c, Patched(m, next), ExitOf(c, Replay(c, Patched(m, next), [first, next]))) {
      AgreeingJumps(c, m, first, next);
    }
  }

  lemma NextTarget(b: nat, x: byte)
    requires b < 3
    ensures Target(Jump(b, x)) ==
      Low24(if b == 0 then x else 0, if b == 1 then x else 0, if b == 2 then x else 0)
  {
    Quotient(Jump(b, x), 0x400_0000, 2, Jump(b, x) - 0x800_0000);
  }

  /** Replaying a word and its successor in the line is a run of the interpreter, whatever the successor, exactly when
      the word writes to no byte of the successor or a breakpoint stands between them. */
  lemma OverwriteInBlockIff(c: Config, m: Machine, first: word)
    requires AtPlainWord(c, m, first)
    ensures (forall next: word ::
              Interprets(c, Patched(m, next), ExitOf(c, Replay(c, Patched(m, next), [first, next])))) <==>
      Spares(Written(m, first), m.a.pc) || m.a.pc + 4 in c.breakpoints
  {
    hide Interprets, Replay, Written, Patched, Read32, EndsBlock, Op;
    var w := Written(m, first);
    if Spares(w, m.a.pc) || m.a.pc + 4 in c.breakpoints {
      forall next: word
        ensures Interprets(c, Patched(m, next), ExitOf(c, Replay(c, Patched(m, next), [first, next])))
      {
        SparedAgrees(c, m, first, next);
      }
    } else if w.at <= m.a.pc + 7 < w.at + |w.bytes| {
      TopOverwritten(c, m, first);
    } else {
      LowOverwritten(c, m, first, if w.at <= m.a.pc + 4 then 0 else w.at - (m.a.pc + 4));
    }
  }
}
