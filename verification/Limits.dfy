/** Where the fast loop's promise of equal semantics stops. The guards of the refinement on interrupts, device
    windows and look-ahead are exact, as is the one on trap vectors (in Traps); for device windows, look-ahead,
    self-modifying code and trap vectors there is a machine beyond the guard on which whole runs part. */
module Limits {
  import opened Words
  import opened Isa
  import opened Machine
  import opened Blocks
  import opened StepFacts
  import opened FastPath

  // ---------------------------------------------------------------- interrupts

  /** Replaying the word at pc is the interpreter's step exactly when no interrupt is pending. */
  lemma ReplayedStepIffNoInterrupt(c: Config, m: Machine)
    requires !m.a.halt && !InTimer(m.a.pc) && !InUart(m.a.pc) && m.a.pc + 4 <= |m.a.mem|
    ensures Issue(c, m, Read32(m.a.mem, m.a.pc)) == Step(c, m) <==> PendingInterrupt(m).NoInterrupt?
  {
    hide Issue, Read32, TakeTrap;
    if PendingInterrupt(m).Interrupt? {
      InterruptLeavesMark(c, m);
      IssueFrame(c, m, Read32(m.a.mem, m.a.pc));
      IllegalMark(m.a.csr, Read32(m.a.mem, m.a.pc), m.a.pc);
    }
  }

  lemma IllegalMark(csr: Csr, tval: nat, pc: nat)
    ensures var t := TakeTrap(csr, 2, tval, pc); t.traps == csr.traps + 1 && t.mcause == 2
  {
  }

  /** After a step that took an interrupt the trap count has grown, by two if the first instruction of
      the handler trapped as well; if by one, the cause is still the interrupt's. */
  lemma InterruptLeavesMark(c: Config, m: Machine)
    requires !m.a.halt && PendingInterrupt(m).Interrupt?
    ensures var csr := Step(c, m).m.a.csr;
      csr.traps > m.a.csr.traps && (csr.traps == m.a.csr.traps + 1 ==> csr.mcause > 2)
  {
    hide Issue;
    var m1 := EnterInterrupt(m);
    if BusServes(m1.a.mem, m1.a.pc) {
      IssueFrame(c, BusAfterRead(m1, m1.a.pc), BusValue(m1, m1.a.pc));
    }
  }

  // ---------------------------------------------------------------- device windows

  function WithMem(m: Machine, mem: seq<byte>): Machine {
    m.(a := m.a.(mem := mem))
  }

  /** The decoder reads the scratchpad, the interpreter the bus: whatever the scratchpad holds, replaying the
      word at pc is the interpreter's step, exactly when pc is in no device window. */
  lemma ReplayedStepIffPlainMemory(c: Config, m: Machine)
    requires !m.a.halt && PendingInterrupt(m).NoInterrupt? && m.a.pc + 4 <= |m.a.mem|
    ensures (forall mem: seq<byte> :: |mem| == |m.a.mem| ==>
              Step(c, WithMem(m, mem)) == Issue(c, WithMem(m, mem), Read32(mem, m.a.pc)))
        <==> !InTimer(m.a.pc) && !InUart(m.a.pc)
  {
    hide Step, Issue, Read32;
    if InTimer(m.a.pc) || InUart(m.a.pc) {
      var fetched := BusValue(m, m.a.pc);
      var other := if Op(fetched).Halt? then 0 else HALT_WORD;
      var mem := Write32(m.a.mem, m.a.pc, other);
      ReadOverWrite(m.a.mem, m.a.pc, other);
      var m1 := WithMem(m, mem);
      StepFromDevice(c, m1);
      HaltTells(c, BusAfterRead(m1, m.a.pc), fetched);
      HaltTells(c, m1, other);
      assert BusValue(m1, m.a.pc) == fetched && Step(c, m1) != Issue(c, m1, other);
    } else {
      forall mem: seq<byte> | |mem| == |m.a.mem|
        ensures Step(c, WithMem(m, mem)) == Issue(c, WithMem(m, mem), Read32(mem, m.a.pc))
      {
        StepIsIssue(c, WithMem(m, mem));
      }
    }
  }

  /** A fetch from a device window issues the register's value. */
  lemma StepFromDevice(c: Config, m: Machine)
    requires !m.a.halt && PendingInterrupt(m).NoInterrupt? && (InTimer(m.a.pc) || InUart(m.a.pc))
    ensures Step(c, m) == Issue(c, BusAfterRead(m, m.a.pc), BusValue(m, m.a.pc))
  {
    hide Issue;
  }

  /** Only HALT halts. */
  lemma HaltTells(c: Config, m: Machine, raw: word)
    requires !m.a.halt
    ensures Issue(c, m, raw).Next? && Issue(c, m, raw).m.a.halt <==> Op(raw).Halt?
  {
    if !Op(raw).Unassigned? {
      HandleFrame(c, Advance(m), raw);
    }
    hide Handle, TickPeripherals;
  }

  /** Fetching the timer's count: the plain loop executes its value, zero, as a NOP; the fast loop executes
      the HALT in the scratchpad below. */
  lemma DeviceFetchDiverges(c: Config, m: Machine, n: nat)
    requires !c.verbose && c.breakpoints == {MMIO_BASE + 4} && n >= 1 && !m.a.csr.mie && !m.a.halt
    requires m.a.pc == MMIO_BASE && MMIO_BASE + 4 <= |m.a.mem| && Read32(m.a.mem, MMIO_BASE) == HALT_WORD
    requires Wrap(m.t.timer.count) == 0
    ensures Run(c, m, n).Stopped? && !Run(c, m, n).m.a.halt
    ensures FastRun(c, m, EMPTY, n).1.Stopped? && FastRun(c, m, EMPTY, n).1.m.a.halt
  {
    StepFromDevice(c, m);
    hide Step, Issue, Read32;
    IssueNop(c, BusAfterRead(m, m.a.pc));
    RunEnds(c, m, Issue(c, BusAfterRead(m, m.a.pc), 0).m, n);
    IssueHalt(c, m);
    DecodeLast(m.a.mem, m.a.pc, MAX_LEN);
    ReplayOne(c, m, Issue(c, m, HALT_WORD).m, [HALT_WORD]);
    assert Turn(c, m, EMPTY).1 == Next(Issue(c, m, HALT_WORD).m);
  }

  lemma RunEnds(c: Config, m: Machine, m1: Machine, n: nat)
    requires n >= 1 && !AtRest(c, m) && Step(c, m) == Next(m1) && AtRest(c, m1)
    ensures Run(c, m, n) == Stopped(m1)
  {
    hide Step;
  }

  lemma DecodeLast(mem: seq<byte>, pc: word, left: nat)
    requires pc + 4 <= |mem| && left > 0 && EndsBlock(Read32(mem, pc))
    ensures Decode(mem, pc, left) == Ops([Read32(mem, pc)], Wrap(pc + 4))
  {
    hide Read32, EndsBlock;
  }

  lemma ReplayOne(c: Config, m: Machine, m1: Machine, ops: seq<word>)
    requires |ops| == 1 && !AtRest(c, m) && Issue(c, m, ops[0]) == Next(m1)
    ensures Replay(c, m, ops) == Next(m1)
  {
    hide Issue;
    assert Replay(c, m1, ops[1..]) == Next(m1);
  }

  // ---------------------------------------------------------------- look-ahead

  /** Where `left` words from an unaligned `cur` on end, if none ends the block. Past 2^32 the address wraps
      after the last word of its residue. */
  function WordsEnd(cur: word, left: nat): nat {
    if left == 0 then 0
    else if cur + 4 * (left - 1) < TWO32 then cur + 4 * left
    else TWO32 + cur % 4
  }

  /** How far decoding from pc can look: to the end of the line from an aligned address, through all
      thirty-two words from any other, whose successors never meet a line boundary. */
  function Reach(pc: word): nat {
    if pc % 4 == 0 then LineEnd(pc) else WordsEnd(pc, 32)
  }

  /** Decoding at pc stays in memory, whatever the memory holds, exactly when memory covers its reach. */
  lemma LookAheadIffReach(size: nat, pc: word)
    ensures (forall mem: seq<byte> :: |mem| == size ==> Translate(mem, pc).Found?) <==> Reach(pc) <= size
  {
    hide Decode;
    if Reach(pc) <= size {
      forall mem: seq<byte> | |mem| == size
        ensures Translate(mem, pc).Found?
      {
        if pc % 4 == 0 {
          DecodeTotal(mem, pc, MAX_LEN);
        } else {
          UnalignedTotal(mem, pc, MAX_LEN);
        }
      }
    } else {
      var mem: seq<byte> := seq(size, _ => 0);
      if pc % 4 == 0 {
        LineFacts(pc);
        PlaceInLine(pc);
        NopsRunOut(mem, LineEnd(pc) - 64, pc, (pc - (LineEnd(pc) - 64)) / 4, MAX_LEN);
      } else {
        UnalignedRunOut(mem, pc, MAX_LEN);
      }
      assert Translate(mem, pc).ReadFault?;
    }
  }

  lemma PlaceInLine(pc: nat)
    requires pc % 4 == 0
    ensures var base := LineEnd(pc) - 64;
      base >= 0 && base % 64 == 0 && base <= pc && pc == base + 4 * ((pc - base) / 4) && (pc - base) / 4 < 16
  {
    var l, q := pc / 64, pc / 4;
    assert 64 * l <= pc < 64 * l + 64 && pc == 4 * q && LineEnd(pc) == 64 * l + 64;
    Quotient(64 * l, 64, l, 0);
    Quotient(pc - 64 * l, 4, q - 16 * l, 0);
  }

  /** So at aligned addresses decoding ahead never runs out of memory where fetching one word would not,
      exactly when the scratchpad ends less than a word past a line boundary or covers every address. */
  lemma LookAheadIffWholeLines(size: nat)
    ensures (forall mem: seq<byte>, pc: word :: |mem| == size && pc % 4 == 0 && pc + 4 <= size ==>
              Translate(mem, pc).Found?)
        <==> size % 64 < 4 || size >= TWO32
  {
    hide Translate;
    if size % 64 < 4 || size >= TWO32 {
      forall mem: seq<byte>, pc: word | |mem| == size && pc % 4 == 0 && pc + 4 <= size
        ensures Translate(mem, pc).Found?
      {
        LineFits(size, pc);
        TranslateFinds(mem, pc);
      }
    } else {
      var pc: word := size - size % 64;
      LastLine(size);
      LookAheadIffReach(size, pc);
    }
  }

  lemma LineFits(size: nat, pc: word)
    requires (size % 64 < 4 || size >= TWO32) && pc % 4 == 0 && pc + 4 <= size
    ensures LineEnd(pc) <= size
  {
    LineFacts(pc);
    var l, t, q := pc / 64, pc % 64, size / 64;
    assert pc == 64 * l + t && size == 64 * q + size % 64 && LineEnd(pc) == 64 * (l + 1);
  }

  lemma LastLine(size: nat)
    requires size % 64 >= 4
    ensures var pc := size - size % 64; pc % 4 == 0 && pc + 4 <= size < LineEnd(pc)
  {
    var q := size / 64;
    assert size - size % 64 == 64 * q;
    Quotient(64 * q, 64, q, 0);
    Quotient(64 * q, 4, 16 * q, 0);
  }

  lemma {:induction false} UnalignedTotal(mem: seq<byte>, cur: word, left: nat)
    requires cur % 4 != 0 && left <= 32 && WordsEnd(cur, left) <= |mem|
    ensures Decode(mem, cur, left).Ops?
    decreases left
  {
    hide Read32, EndsBlock;
    if left > 0 {
      assert cur + 4 <= |mem|;
      NextUnaligned(cur, left, |mem|);
      UnalignedTotal(mem, Wrap(cur + 4), left - 1);
    }
  }

  /** After an unaligned word comes another, never a line boundary; the words still fit exactly when they did. */
  lemma NextUnaligned(cur: word, left: nat, size: nat)
    requires cur % 4 != 0 && 0 < left <= 32 && cur + 4 <= size
    ensures Wrap(cur + 4) % 4 != 0 && Wrap(cur + 4) % 64 != 0
    ensures WordsEnd(Wrap(cur + 4), left - 1) <= size <==> WordsEnd(cur, left) <= size
  {
    WrapFour(cur);
  }

  lemma WrapFour(cur: word)
    ensures Wrap(cur + 4) == if cur + 4 < TWO32 then cur + 4 else cur + 4 - TWO32
    ensures cur % 4 != 0 ==> Wrap(cur + 4) % 4 == cur % 4 && Wrap(cur + 4) % 64 != 0
    ensures cur + 4 >= TWO32 ==> cur == TWO32 - 4 + cur % 4
  {
    var q, r := cur / 4, cur % 4;
    assert cur == 4 * q + r;
    if cur + 4 < TWO32 {
      WrapIs(cur + 4, 0);
      Quotient(Wrap(cur + 4), 4, q + 1, r);
    } else {
      WrapIs(cur + 4, 1);
      Quotient(Wrap(cur + 4), 4, q + 1 - 0x4000_0000, r);
    }
    LineIsAligned(Wrap(cur + 4));
  }

  lemma LineIsAligned(pc: nat)
    ensures pc % 64 == 0 ==> pc % 4 == 0
  {
    if pc % 64 == 0 {
      Quotient(pc, 4, 16 * (pc / 64), 0);
    }
  }

  /** In the line from `base` on, a tail of NOPs that memory does not hold to the end is decoded past the end. */
  lemma {:induction false} NopsRunOut(mem: seq<byte>, base: nat, cur: word, i: nat, left: nat)
    requires forall k :: 0 <= k < |mem| ==> mem[k] == 0
    requires base % 64 == 0 && |mem| < base + 64 <= TWO32 && cur == base + 4 * i && i < 16 <= i + left
    ensures Decode(mem, cur, left).OutOfRange?
    decreases left
  {
    hide EndsBlock, Read32, Wrap, Decode;
    if cur + 4 <= |mem| {
      NopWord(mem, cur);
      WrapIs(cur + 4, 0);
      Quotient(cur + 4, 64, base / 64, 4 * i + 4);
      NopsRunOut(mem, base, cur + 4, i + 1, left - 1);
    }
    DecodeOut(mem, cur, left);
  }

  lemma {:induction false} UnalignedRunOut(mem: seq<byte>, cur: word, left: nat)
    requires forall k :: 0 <= k < |mem| ==> mem[k] == 0
    requires cur % 4 != 0 && left <= 32 && |mem| < WordsEnd(cur, left)
    ensures Decode(mem, cur, left).OutOfRange?
    decreases left
  {
    hide EndsBlock, Read32, Wrap, Decode;
    if cur + 4 <= |mem| {
      NopWord(mem, cur);
      NextUnaligned(cur, left, |mem|);
      UnalignedRunOut(mem, Wrap(cur + 4), left - 1);
    }
    DecodeOut(mem, cur, left);
  }

  /** One step of running out: past memory, or past a plain word in mid-line. */
  lemma DecodeOut(mem: seq<byte>, cur: word, left: nat)
    requires left > 0
    requires cur + 4 > |mem|
      || (!EndsBlock(Read32(mem, cur)) && Wrap(cur + 4) % 64 != 0 && Decode(mem, Wrap(cur + 4), left - 1).OutOfRange?)
    ensures Decode(mem, cur, left).OutOfRange?
  {
    hide EndsBlock, Read32, Wrap;
  }

  lemma NopWord(mem: seq<byte>, at: nat)
    requires at + 4 <= |mem| && forall k :: 0 <= k < |mem| ==> mem[k] == 0
    ensures Read32(mem, at) == 0 && !EndsBlock(0)
  {
  }

  /** Near the end of memory an unaligned pc parts the two loops on the very first word: with fewer than two words
      left and a NOP at pc, the plain loop executes it and stops at the breakpoint behind, the fast loop throws. */
  lemma UnalignedDiverges(c: Config, m: Machine, n: nat)
    requires !c.verbose && n >= 1 && PendingInterrupt(m).NoInterrupt? && !m.a.halt
    requires m.a.pc % 4 != 0 && c.breakpoints == {m.a.pc + 4} && m.a.pc + 8 < MMIO_BASE
    requires m.a.pc + 4 <= |m.a.mem| < m.a.pc + 8 && Read32(m.a.mem, m.a.pc) == 0
    ensures Run(c, m, n).Stopped?
    ensures FastRun(c, m, EMPTY, n).1 == Threw(m, AccessOutOfBounds)
  {
    hide Read32, Issue, Step;
    StepIsIssue(c, m);
    IssueNop(c, m);
    RunEnds(c, m, Issue(c, m, 0).m, n);
    NopBeforeEnd(m.a.mem, m.a.pc, MAX_LEN);
    assert Turn(c, m, EMPTY).1 == Thrown(m, AccessOutOfBounds);
  }

  lemma NopBeforeEnd(mem: seq<byte>, pc: word, left: nat)
    requires left > 1 && pc % 4 != 0 && pc + 4 <= |mem| < pc + 8 && pc + 8 < TWO32 && Read32(mem, pc) == 0
    ensures Decode(mem, pc, left).OutOfRange?
  {
    hide Read32, Decode;
    WrapFour(pc);
    DecodeOut(mem, Wrap(pc + 4), left - 1);
    DecodeOut(mem, pc, left);
  }

  // ---------------------------------------------------------------- two-word blocks at a line's end

  /** Two words at the end of the first line, of which the first is no control flow, are one block. */
  lemma LastPair(mem: seq<byte>, pc: word, first: word, second: word)
    requires pc == 56 && 64 <= |mem| && Read32(mem, pc) == first && Read32(mem, 60) == second
    requires !EndsBlock(first)
    ensures Translate(mem, pc).Found? && Translate(mem, pc).block.ops == [first, second]
  {
    hide Read32;
    DecodePair(mem, pc, MAX_LEN);
  }

  lemma DecodePair(mem: seq<byte>, pc: word, left: nat)
    requires pc == 56 && 64 <= |mem| && left > 1 && !EndsBlock(Read32(mem, pc))
    ensures Decode(mem, pc, left) == Ops([Read32(mem, pc), Read32(mem, 60)], 64)
  {
    hide Read32;
    var next: word := pc + 4;
    assert Decode(mem, next, left - 1) == Ops([Read32(mem, next)], 64);
  }

  /** A block of two words replayed on a machine that goes on to a breakpoint. */
  lemma PairTurn(c: Config, m: Machine, m1: Machine, m2: Machine, first: word, second: word, n: nat)
    requires !c.verbose && !AtRest(c, m) && n > 0
    requires m.a.pc == 56 && 64 <= |m.a.mem| && Read32(m.a.mem, 56) == first && Read32(m.a.mem, 60) == second
    requires !EndsBlock(first) && Issue(c, m, first) == Next(m1)
    requires !AtRest(c, m1) && Issue(c, m1, second) == Next(m2) && AtRest(c, m2)
    ensures FastRun(c, m, EMPTY, n).1 == Stopped(m2)
  {
    hide Issue, Read32, Translate;
    var pc := m.a.pc;
    LastPair(m.a.mem, pc, first, second);
    ReplayPair(c, m, m1, m2, [first, second]);
    assert Turn(c, m, EMPTY).1 == Next(m2);
  }

  lemma ReplayPair(c: Config, m: Machine, m1: Machine, m2: Machine, ops: seq<word>)
    requires |ops| == 2 && !EndsBlock(ops[0]) && !AtRest(c, m) && !AtRest(c, m1)
    requires Issue(c, m, ops[0]) == Next(m1) && Issue(c, m1, ops[1]) == Next(m2)
    ensures Replay(c, m, ops) == Next(m2)
  {
    hide Issue;
    var rest := ops[1..];
    assert rest[0] == ops[1] && rest[1..] == [];
    assert Replay(c, m2, []) == Next(m2);
    assert Replay(c, m1, rest) == Next(m2);
  }

  // ---------------------------------------------------------------- self-modifying code

  /** Executing a NOP. */
  lemma IssueNop(c: Config, m: Machine)
    ensures Issue(c, m, 0).Next? && Issue(c, m, 0).m.a == m.a.(pc := Wrap(m.a.pc + 4))
  {
  }

  const HALT_WORD: word := 0x400_0000

  lemma IssueHalt(c: Config, m: Machine)
    ensures Issue(c, m, HALT_WORD).Next?
    ensures Issue(c, m, HALT_WORD).m.a == m.a.(pc := Wrap(m.a.pc + 4), halt := true)
  {
  }

  /** A store executes: only the stored word, pc, the fabric and the counters change. */
  lemma IssueStore(c: Config, m: Machine, raw: word, at: nat)
    requires Op(raw).Store? && Ra(raw) == 0 && Rd(raw) == 1 && Simm16(raw) == at
    requires at + 4 <= |m.a.mem| && at < MMIO_BASE
    ensures Issue(c, m, raw).Next?
    ensures Issue(c, m, raw).m.a == m.a.(pc := Wrap(m.a.pc + 4), mem := Write32(m.a.mem, at, m.a.gpr[1]))
  {
    WrapIs(at, 0);
    hide Write32, Wrap, Op, Rd, Ra, Simm16, TickPeripherals;
    assert Effective(Advance(m), raw) == at;
    hide Effective;
    assert Handle(c, Advance(m), raw) == ExecStore(Advance(m), raw);
    hide Handle;
  }

  /** Code that overwrites its successor in the same line: the plain loop halts on the word just
      written, the fast loop executes the NOP it had decoded before. */
  lemma StaleBlockDiverges(c: Config, m: Machine, store: word, n: nat)
    requires !c.verbose && c.breakpoints == {64} && n >= 2 && !m.a.csr.mie && !m.a.halt
    requires m.a.pc == 56 && 64 <= |m.a.mem| && Read32(m.a.mem, 56) == store && Read32(m.a.mem, 60) == 0
    requires Op(store).Store? && Ra(store) == 0 && Rd(store) == 1 && Simm16(store) == 60
    requires m.a.gpr[1] == HALT_WORD
    ensures Run(c, m, n).Stopped? && Run(c, m, n).m.a.halt
    ensures FastRun(c, m, EMPTY, n).1.Stopped? && !FastRun(c, m, EMPTY, n).1.m.a.halt
  {
    hide Issue, Read32, Write32, Step, FastRun, Op;
    IssueStore(c, m, store, 60);
    StepIsIssue(c, m);
    var m1 := Issue(c, m, store).m;
    ReadOverWrite(m.a.mem, 60, HALT_WORD);
    StepIsIssue(c, m1);
    IssueHalt(c, m1);
    RunTwo(c, m, m1, Issue(c, m1, HALT_WORD).m, n);
    IssueNop(c, m1);
    StoreKeepsLine(store);
    PairTurn(c, m, m1, Issue(c, m1, 0).m, store, 0, n);
  }

  lemma StoreKeepsLine(raw: word)
    requires Op(raw).Store?
    ensures !EndsBlock(raw)
  {
    EndsBlockOpcodes(raw);
  }

  lemma RunTwo(c: Config, m: Machine, m1: Machine, m2: Machine, n: nat)
    requires n >= 2 && !AtRest(c, m) && !AtRest(c, m1) && AtRest(c, m2)
    requires Step(c, m) == Next(m1) && Step(c, m1) == Next(m2)
    ensures Run(c, m, n) == Stopped(m2)
  {
    hide Step;
    assert Run(c, m1, n - 1) == Run(c, m2, n - 2);
  }

  // ---------------------------------------------------------------- trap vectors

  /** With a trap vector set, an illegal word in mid-block redirects pc, but the replay goes on with
      the block: the plain loop halts in the handler, the fast loop runs the next word in its place. */
  lemma TrapInBlockDiverges(c: Config, m: Machine, bad: word, n: nat)
    requires !c.verbose && c.breakpoints == {20} && n >= 2 && !m.a.csr.mie && m.a.csr.mtvec == 16 && !m.a.halt
    requires m.a.pc == 56 && 64 <= |m.a.mem| && Read32(m.a.mem, 56) == bad && Read32(m.a.mem, 60) == 0
    requires Op(bad).Unassigned? && Read32(m.a.mem, 16) == HALT_WORD
    ensures Run(c, m, n).Stopped? && Run(c, m, n).m.a.halt
    ensures FastRun(c, m, EMPTY, n).1.Stopped? && !FastRun(c, m, EMPTY, n).1.m.a.halt
  {
    hide Issue, Read32, FastRun, Op;
    IssueIllegal(c, m, bad);
    var m1 := Issue(c, m, bad).m;
    assert Step(c, m) == Next(m1);
    IssueHalt(c, m1);
    assert Step(c, m1) == Issue(c, m1, HALT_WORD);
    hide Step;
    RunTwo(c, m, m1, Issue(c, m1, HALT_WORD).m, n);
    IssueNop(c, m1);
    IllegalKeepsLine(bad);
    PairTurn(c, m, m1, Issue(c, m1, 0).m, bad, 0, n);
  }

  lemma IssueIllegal(c: Config, m: Machine, raw: word)
    requires Op(raw).Unassigned? && m.a.csr.mtvec == 16 && !m.a.csr.mie
    ensures Issue(c, m, raw).Next? && var m1 := Issue(c, m, raw).m;
      m1.a.pc == 16 && m1.a.mem == m.a.mem && m1.a.halt == m.a.halt && !m1.a.csr.mie
  {
  }

  lemma IllegalKeepsLine(raw: word)
    requires Op(raw).Unassigned?
    ensures !EndsBlock(raw)
  {
    EndsBlockOpcodes(raw);
  }
}
