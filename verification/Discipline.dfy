/** Criteria for the code discipline that can be read off the program text: every word of the text leads back
    into the text, and no word of it can write to the scratchpad. */
module Discipline {
  import opened Words
  import opened Isa
  import opened Machine
  import opened Blocks
  import opened StepFacts
  import opened FastPath

  // ---------------------------------------------------------------- interrupts that cannot come

  /** No interrupt line that the controller looks at is both enabled and allowed through. */
  predicate Undisturbed(csr: Csr) {
    csr.mie ==> csr.enabled !! {3, 5, 7, 9, 11}
  }

  lemma UndisturbedNow(m: Machine)
    requires Undisturbed(m.a.csr)
    ensures PendingInterrupt(m).NoInterrupt?
  {
    forall l | l in {3, 5, 7, 9, 11} && m.a.csr.mie
      ensures l !in m.t.mip * m.a.csr.enabled
    {
    }
  }

  /** Nothing a program does can change that. */
  lemma UndisturbedStep(c: Config, m: Machine)
    requires Undisturbed(m.a.csr)
    ensures Undisturbed(Step(c, m).m.a.csr)
  {
    hide Step;
    StepCsr(c, m);
  }

  // ---------------------------------------------------------------- closed text

  predicate Inside(pc: int, size: nat) {
    0 <= pc < size && pc % 4 == 0
  }

  /** Where a word at `at` can send pc is inside the text, unless it stops the machine. An illegal word throws,
      or traps to a vector inside the text from where the fast loop may leave its block. */
  predicate StaysInside(c: Config, csr: Csr, raw: word, at: word, size: nat) {
    match Op(raw)
    case Halt => true
    case Unassigned(_) => csr.mtvec == 0 || (Inside(VectorBase(csr), size) && TrapSafe(c, csr, at, raw))
    case Jmp => Inside(Target(raw), size)
    case Beq => Inside(Wrap(at + 4), size) && Inside(Wrap(Wrap(at + 4) + Simm16(raw)), size)
    case Bne => Inside(Wrap(at + 4), size) && Inside(Wrap(Wrap(at + 4) + Simm16(raw)), size)
    case _ => Inside(Wrap(at + 4), size)
  }

  /** The first `size` bytes are whole lines of plain memory closed under control flow. */
  ghost predicate ClosedText(c: Config, a: Arch, size: nat) {
    && size % 64 == 0 && size <= |a.mem| && size <= MMIO_BASE
    && forall at: word :: Inside(at, size) ==> StaysInside(c, a.csr, Read32(a.mem, at), at, size)
  }

  predicate IsLine(l: int, size: nat) {
    0 <= l < size / 64
  }

  ghost function Lines(size: nat): set<int> {
    set l | 0 <= l < size && IsLine(l, size)
  }

  lemma IssuePc(c: Config, m: Machine, raw: word, size: nat)
    requires Issue(c, m, raw).Next? && StaysInside(c, m.a.csr, raw, m.a.pc, size)
    ensures var m1 := Issue(c, m, raw).m; m1.a.halt || Inside(m1.a.pc, size)
  {
    EndsBlockOpcodes(raw);
    if EndsBlock(raw) {
      hide EndsBlock, Op, Wrap, Target, Simm16, Inside, TickPeripherals, ReadGpr, VectorBase;
    } else {
      IssueFrame(c, m, raw);
      hide Issue, EndsBlock, Op, Wrap, Target, Simm16, Inside, VectorBase;
    }
  }

  /** Text closed under control flow survives any step that leaves its lines and the trap vector alone. */
  lemma ClosedTextStable(c: Config, a: Arch, a': Arch, size: nat)
    requires ClosedText(c, a, size) && Stable(a.mem, a'.mem, Lines(size)) && a'.csr.mtvec == a.csr.mtvec
    ensures ClosedText(c, a', size)
  {
    hide StaysInside, Read32, Lines, Stable;
    StableSize(a.mem, a'.mem, Lines(size));
    forall at: word | Inside(at, size)
      ensures StaysInside(c, a'.csr, Read32(a'.mem, at), at, size)
    {
      TextWordStable(a.mem, a'.mem, size, at);
      SameVector(c, a.csr, a'.csr, Read32(a.mem, at), at, size);
    }
  }

  lemma SameVector(c: Config, csr: Csr, csr': Csr, raw: word, at: word, size: nat)
    requires StaysInside(c, csr, raw, at, size) && csr'.mtvec == csr.mtvec
    ensures StaysInside(c, csr', raw, at, size)
  {
  }

  lemma TextWordStable(mem: seq<byte>, mem': seq<byte>, size: nat, at: nat)
    requires size % 64 == 0 && size <= |mem| && Inside(at, size) && Stable(mem, mem', Lines(size))
    ensures at + 4 <= |mem| == |mem'| && Read32(mem', at) == Read32(mem, at)
  {
    hide Read32;
    LineOf(at, size);
    hide Lines;
    StableWord(mem, mem', at, Lines(size));
  }

  lemma LineOf(at: nat, size: nat)
    requires Inside(at, size) && size % 64 == 0
    ensures LineEnd(at) <= size && at + 4 <= size && forall k :: at <= k < at + 4 ==> k / 64 in Lines(size)
  {
    LineFacts(at);
    var s, l := size / 64, at / 64;
    assert size == 64 * s && 64 * l <= at && LineEnd(at) == 64 * l + 64;
    forall k | at <= k < at + 4
      ensures k / 64 in Lines(size)
    {
      Quotient(k, 64, l, k - 64 * l);
      assert IsLine(l, size);
    }
  }

  // ---------------------------------------------------------------- text that a run leaves alone

  /** No step of the run modifies the text. */
  ghost predicate KeepsText(c: Config, m: Machine, size: nat) {
    forall n: nat :: Run(c, m, n).Running? && Step(c, Run(c, m, n).m).Next? ==>
      Stable(Run(c, m, n).m.a.mem, Step(c, Run(c, m, n).m).m.a.mem, Lines(size))
  }

  lemma KeepsTextStep(c: Config, m: Machine, size: nat)
    requires KeepsText(c, m, size) && !AtRest(c, m) && Step(c, m).Next?
    ensures Stable(m.a.mem, Step(c, m).m.a.mem, Lines(size))
    ensures KeepsText(c, Step(c, m).m, size)
  {
    hide Step, Stable;
    var zero: nat := 0;
    assert Run(c, m, zero) == Running(m);
    var m1 := Step(c, m).m;
    forall n: nat | Run(c, m1, n).Running? && Step(c, Run(c, m1, n).m).Next?
      ensures Stable(Run(c, m1, n).m.a.mem, Step(c, Run(c, m1, n).m).m.a.mem, Lines(size))
    {
      assert Run(c, m, n + 1) == Run(c, m1, n);
    }
  }

  /** Running inside closed text, with no interrupt to come. */
  ghost predicate InText(c: Config, m: Machine, size: nat) {
    Undisturbed(m.a.csr) && !m.a.halt && ClosedText(c, m.a, size) && Inside(m.a.pc, size)
  }

  lemma TextFacts(c: Config, m: Machine, size: nat)
    requires InText(c, m, size)
    ensures PendingInterrupt(m).NoInterrupt? && m.a.pc % 4 == 0 && m.a.pc < MMIO_BASE
    ensures LineEnd(m.a.pc) <= |m.a.mem| && m.a.pc + 4 <= |m.a.mem| && m.a.pc / 64 in Lines(size)
    ensures StaysInside(c, m.a.csr, Read32(m.a.mem, m.a.pc), m.a.pc, size)
    ensures Step(c, m) == Issue(c, m, Read32(m.a.mem, m.a.pc))
  {
    hide Lines, StaysInside, Read32, Issue, LineEnd;
    LineOf(m.a.pc, size);
    UndisturbedNow(m);
    StepIsIssue(c, m);
  }

  lemma TextIsSafe(c: Config, m: Machine, size: nat)
    requires InText(c, m, size)
    requires Step(c, m).Next? ==> Stable(m.a.mem, Step(c, m).m.a.mem, Lines(size))
    ensures StepSafe(c, m, Lines(size))
  {
    TextFacts(c, m, size);
    TranslateFinds(m.a.mem, m.a.pc);
    AlignedAhead(m.a.pc, MAX_LEN, Lines(size));
    hide Step, Stable, Translate, Read32, InText, Lines, LinesAhead;
  }

  lemma StepInText(c: Config, m: Machine, size: nat)
    requires InText(c, m, size) && Step(c, m).Next? && Stable(m.a.mem, Step(c, m).m.a.mem, Lines(size))
    ensures Step(c, m).m.a.halt || InText(c, Step(c, m).m, size)
  {
    TextFacts(c, m, size);
    hide Step, Issue, StaysInside, ClosedText, Stable;
    IssuePc(c, m, Read32(m.a.mem, m.a.pc), size);
    StepCsr(c, m);
    UndisturbedStep(c, m);
    ClosedTextStable(c, m.a, Step(c, m).m.a, size);
  }

  lemma {:induction false} StaysInText(c: Config, m: Machine, size: nat, n: nat)
    requires InText(c, m, size) && KeepsText(c, m, size) && Run(c, m, n).Running?
    ensures StepSafe(c, Run(c, m, n).m, Lines(size))
    decreases n
  {
    hide Step, ClosedText, Stable, StepSafe, Inside;
    if n == 0 {
      assert Run(c, m, n) == Running(m);
      if Step(c, m).Next? {
        KeepsTextStep(c, m, size);
      }
      TextIsSafe(c, m, size);
    } else {
      KeepsTextStep(c, m, size);
      StepInText(c, m, size);
      StaysInText(c, Step(c, m).m, size, n - 1);
    }
  }

  /** Closed text that the run does not modify is disciplined, so the fast loop may run it. */
  lemma ClosedTextIsDisciplined(c: Config, m: Machine, size: nat)
    requires InText(c, m, size) && KeepsText(c, m, size)
    ensures Disciplined(c, m, Lines(size))
    ensures forall n: nat :: !Run(c, m, n).Running? ==> FastRun(c, m, EMPTY, n).1 == Run(c, m, n)
  {
    hide Run, FastRun, KeepsText, StepSafe;
    forall n: nat | Run(c, m, n).Running?
      ensures StepSafe(c, Run(c, m, n).m, Lines(size))
    {
      StaysInText(c, m, size, n);
    }
    FastRunRefinesRun(c, m, EMPTY, Lines(size));
  }

  // ---------------------------------------------------------------- text that cannot write

  lemma IssueKeepsMem(c: Config, m: Machine, raw: word)
    requires !MayWrite(raw)
    ensures Issue(c, m, raw).m.a.mem == m.a.mem
  {
    if !Op(raw).Unassigned? {
      HandleKeepsMem(c, Advance(m), raw);
    }
    hide Handle, TickPeripherals;
  }

  ghost predicate WriteFree(mem: seq<byte>, size: nat) {
    forall at: word :: Inside(at, size) && at + 4 <= |mem| ==> !MayWrite(Read32(mem, at))
  }

  lemma WriteFreeStep(c: Config, m: Machine, size: nat)
    requires InText(c, m, size) && WriteFree(m.a.mem, size)
    ensures Step(c, m).m.a.mem == m.a.mem
  {
    TextFacts(c, m, size);
    hide Step, Issue, ClosedText, Read32, MayWrite, LineEnd;
    IssueKeepsMem(c, m, Read32(m.a.mem, m.a.pc));
  }

  /** Along a run in closed text without writes, the scratchpad is what it was. */
  lemma {:induction false} WriteFreeRun(c: Config, m: Machine, size: nat, n: nat)
    requires InText(c, m, size) && WriteFree(m.a.mem, size) && Run(c, m, n).Running?
    ensures Step(c, Run(c, m, n).m).m.a.mem == Run(c, m, n).m.a.mem
    decreases n
  {
    hide Step, ClosedText, Undisturbed, Inside, WriteFree;
    WriteFreeStep(c, m, size);
    if n > 0 {
      StableRefl(m.a.mem, Lines(size));
      StepInText(c, m, size);
      WriteFreeRun(c, Step(c, m).m, size, n - 1);
    }
  }

  lemma StableRefl(mem: seq<byte>, lines: set<int>)
    ensures Stable(mem, mem, lines)
  {
  }

  /** What a caller can check before the call: the text is closed under control flow and holds no word that
      writes to the scratchpad. Then the fast loop ends where the plain loop ends. */
  lemma WriteFreeTextIsDisciplined(c: Config, m: Machine, size: nat)
    requires InText(c, m, size) && WriteFree(m.a.mem, size)
    ensures Disciplined(c, m, Lines(size))
    ensures forall n: nat :: !Run(c, m, n).Running? ==> FastRun(c, m, EMPTY, n).1 == Run(c, m, n)
  {
    hide Run, Step, FastRun, InText, WriteFree, Disciplined, Lines, Stable;
    forall n: nat | Run(c, m, n).Running? && Step(c, Run(c, m, n).m).Next?
      ensures Stable(Run(c, m, n).m.a.mem, Step(c, Run(c, m, n).m).m.a.mem, Lines(size))
    {
      WriteFreeRun(c, m, size, n);
      StableRefl(Run(c, m, n).m.a.mem, Lines(size));
    }
    ClosedTextIsDisciplined(c, m, size);
  }
}
