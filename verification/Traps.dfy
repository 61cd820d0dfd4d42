/** The trap-vector guard is exact: an illegal word in mid-block with a vector set is replayed as the plain loop
    executes it, whatever word follows, exactly when the vector is that next word or a breakpoint. */
module Traps {
  import opened Words
  import opened Isa
  import opened Machine
  import opened Blocks
  import opened StepFacts
  import opened Cycles
  import opened FastPath
  import opened Limits

  // ---------------------------------------------------------------- every step leaves a trace

  /** Instructions recorded and traps taken. */
  function Trace(m: Machine): nat {
    m.t.prof.instrs + m.a.csr.traps
  }

  lemma IssueTrace(c: Config, m: Machine, raw: word)
    requires Issue(c, m, raw).Next?
    ensures Trace(Issue(c, m, raw).m) > Trace(m)
  {
    IssueFrame(c, m, raw);
    hide TickPeripherals;
    if !Op(raw).Unassigned? {
      HandleBooks(c, Advance(m), raw);
      hide Handle;
    }
    TickBooks(Execute(c, Advance(m), raw).m.t);
  }

  lemma StepTrace(c: Config, m: Machine)
    requires !m.a.halt && Step(c, m).Next?
    ensures Trace(Step(c, m).m) > Trace(m)
  {
    hide Issue, BusValue;
    var m1 := EnterInterrupt(m);
    IssueTrace(c, BusAfterRead(m1, m1.a.pc), BusValue(m1, m1.a.pc));
  }

  /** So no later state of a run is an earlier one. */
  lemma {:induction false} RunTrace(c: Config, m: Machine, n: nat)
    requires !AtRest(c, m) && n > 0 && !Run(c, m, n).Threw?
    ensures Trace(Run(c, m, n).m) > Trace(m)
    decreases n
  {
    hide Step, Trace;
    StepTrace(c, m);
    var m1 := Step(c, m).m;
    if n > 1 && !AtRest(c, m1) {
      RunTrace(c, m1, n - 1);
    } else {
      assert Run(c, m1, n - 1).m == m1;
    }
  }

  // ---------------------------------------------------------------- the word after the illegal one

  /** The machine with `next` in the word after pc. */
  function Patched(m: Machine, next: word): Machine
    requires m.a.pc + 8 <= |m.a.mem|
  {
    WithMem(m, Write32(m.a.mem, m.a.pc + 4, next))
  }

  /** The machine stands in mid-line, in plain memory, at an illegal word, with a trap vector set. */
  predicate AtTrap(c: Config, m: Machine, bad: word) {
    && !AtRest(c, m) && PendingInterrupt(m).NoInterrupt? && !InTimer(m.a.pc) && !InUart(m.a.pc)
    && m.a.pc % 4 == 0 && m.a.pc % 64 != 60 && m.a.pc + 8 <= |m.a.mem|
    && Read32(m.a.mem, m.a.pc) == bad && Op(bad).Unassigned? && m.a.csr.mtvec != 0
  }

  /** What the trap leaves: pc at the vector, interrupts off. */
  lemma TrapTaken(c: Config, m: Machine, bad: word, next: word)
    requires AtTrap(c, m, bad)
    ensures var m0, out := Patched(m, next), Issue(c, Patched(m, next), bad);
      && Step(c, m0) == out && out.Next?
      && out.m.a.pc == VectorBase(m.a.csr) && out.m.a.mem == m0.a.mem == Write32(m.a.mem, m.a.pc + 4, next)
      && !out.m.a.halt && !out.m.a.csr.mie
      && Trace(out.m) == Trace(m) + 1 && out.m.t == TickPeripherals(m.t)
  {
    var m0 := Patched(m, next);
    ReadFrame(m.a.mem, m0.a.mem, m.a.pc);
    hide Read32, Write32;
    StepIsIssue(c, m0);
    hide Step;
    TickBooks(m.t);
    hide TickPeripherals;
  }

  lemma ReplayTwo(c: Config, m: Machine, m1: Machine, ops: seq<word>)
    requires |ops| == 2 && !EndsBlock(ops[0]) && !AtRest(c, m) && Issue(c, m, ops[0]) == Next(m1)
    ensures Replay(c, m, ops) == if AtRest(c, m1) then Next(m1) else Issue(c, m1, ops[1])
  {
    hide Issue, EndsBlock;
    var rest := ops[1..];
    assert rest[0] == ops[1] && rest[1..] == [];
    if !AtRest(c, m1) && Issue(c, m1, ops[1]).Next? {
      assert Replay(c, Issue(c, m1, ops[1]).m, []) == Next(Issue(c, m1, ops[1]).m);
    }
  }

  /** The guard suffices: the trap ends in front of a breakpoint, or at the word replayed next. */
  lemma GuardedTrapAgrees(c: Config, m: Machine, bad: word, next: word)
    requires AtTrap(c, m, bad)
    requires VectorBase(m.a.csr) == m.a.pc + 4 || VectorBase(m.a.csr) in c.breakpoints
    ensures Interprets(c, Patched(m, next), ExitOf(c, Replay(c, Patched(m, next), [bad, next])))
  {
    var m0 := Patched(m, next);
    TrapTaken(c, m, bad, next);
    ReadOverWrite(m.a.mem, m.a.pc + 4, next);
    IllegalKeepsLine(bad);
    hide Step, Issue, Read32, Write32;
    var m1 := Issue(c, m0, bad).m;
    ReplayTwo(c, m0, m1, [bad, next]);
    RunOne(c, m0);
    if !AtRest(c, m1) {
      WindowLines(m.a.pc);
      StepIsIssue(c, m1);
      RunOne(c, m1);
      RunCompose(c, m0, 1, 1);
      assert Run(c, m0, 2) == ExitOf(c, Replay(c, m0, [bad, next]));
    } else {
      assert Run(c, m0, 1) == ExitOf(c, Replay(c, m0, [bad, next]));
    }
  }

  /** Device windows are whole lines. */
  lemma WindowLines(pc: nat)
    requires pc % 4 == 0 && pc % 64 != 60 && !InTimer(pc) && !InUart(pc)
    ensures !InTimer(pc + 4) && !InUart(pc + 4)
  {
  }

  /** A run that is one trace past its first step has taken exactly two steps. */
  lemma SecondStep(c: Config, m0: Machine, m1: Machine, m2: Machine, steps: nat)
    requires !AtRest(c, m0) && Step(c, m0) == Next(m1) && !AtRest(c, m1)
    requires Trace(m1) > Trace(m0) && Trace(m2) == Trace(m1) + 1 && Run(c, m0, steps) == Settle(c, m2)
    ensures Step(c, m1) == Next(m2)
  {
    hide Step, Trace;
    if steps >= 2 {
      assert Run(c, m1, steps - 1) == Settle(c, m2);
      StepTrace(c, m1);
      var m3 := Step(c, m1).m;
      if steps > 2 && !AtRest(c, m3) {
        RunTrace(c, m3, steps - 2);
      } else {
        assert Run(c, m3, steps - 2).m == m3;
      }
    }
  }

  /** Off the guard, the plain loop agrees only if the word at the vector does exactly what `next` does. */
  lemma StrayTrap(c: Config, m: Machine, bad: word, next: word)
    requires AtTrap(c, m, bad) && (next == 0 || next == HALT_WORD)
    requires VectorBase(m.a.csr) != m.a.pc + 4 && VectorBase(m.a.csr) !in c.breakpoints
    requires Interprets(c, Patched(m, next), ExitOf(c, Replay(c, Patched(m, next), [bad, next])))
    ensures var m1 := Issue(c, Patched(m, next), bad).m;
      Step(c, m1) == Issue(c, m1, next)
  {
    var m0 := Patched(m, next);
    assert !AtRest(c, m0) && Trace(m0) == Trace(m);
    TrapTaken(c, m, bad, next);
    hide Step, Issue, Trace, Patched, Replay, VectorBase, Op, EndsBlock, Run;
    IllegalKeepsLine(bad);
    var m1 := Issue(c, m0, bad).m;
    ReplayTwo(c, m0, m1, [bad, next]);
    ShortTrace(c, m1, next);
    var m2 := Issue(c, m1, next).m;
    var steps: nat :| Run(c, m0, steps) == ExitOf(c, Replay(c, m0, [bad, next]));
    SecondStep(c, m0, m1, m2, steps);
  }

  lemma ShortTrace(c: Config, m: Machine, raw: word)
    requires raw == 0 || raw == HALT_WORD
    ensures Issue(c, m, raw).Next? && Trace(Issue(c, m, raw).m) == Trace(m) + 1
  {
    TickBooks(Execute(c, Advance(m), raw).m.t);
  }

  /** A fetch sees the devices and the word at pc, nothing else. */
  lemma FetchSame(m1: Machine, m2: Machine)
    requires m1.t == m2.t && m1.a.pc == m2.a.pc && |m1.a.mem| == |m2.a.mem|
    requires m1.a.pc + 4 <= |m1.a.mem| ==> Read32(m1.a.mem, m1.a.pc) == Read32(m2.a.mem, m1.a.pc)
    ensures BusServes(m1.a.mem, m1.a.pc) == BusServes(m2.a.mem, m2.a.pc)
    ensures BusServes(m1.a.mem, m1.a.pc) ==> BusValue(m1, m1.a.pc) == BusValue(m2, m2.a.pc)
  {
    hide Read32;
  }

  lemma OtherWord(mem: seq<byte>, at: nat, x: word, y: word, v: nat)
    requires at + 4 <= |mem| && v + 4 <= |mem| && at % 4 == 0 && v % 4 == 0 && v != at
    ensures Read32(Write32(mem, at, x), v) == Read32(Write32(mem, at, y), v)
  {
    Apart(v, at);
    hide Read32, Write32;
    ReadFrame(mem, Write32(mem, at, x), v);
    ReadFrame(mem, Write32(mem, at, y), v);
  }

  /** What the vector holds does not depend on the word after pc. */
  lemma VectorFetch(c: Config, m: Machine, bad: word, next: word)
    requires AtTrap(c, m, bad) && VectorBase(m.a.csr) != m.a.pc + 4
    ensures var m1, m2 := Issue(c, Patched(m, next), bad).m, Issue(c, Patched(m, 0), bad).m;
      && BusServes(m1.a.mem, m1.a.pc) == BusServes(m2.a.mem, m2.a.pc)
      && (BusServes(m1.a.mem, m1.a.pc) ==> BusValue(m1, m1.a.pc) == BusValue(m2, m2.a.pc))
  {
    hide Issue, Step, TickPeripherals, Read32, Write32, Trace, BusServes, BusValue, VectorBase, Patched, Op, AtTrap;
    TrapRoom(c, m, bad);
    TrapTaken(c, m, bad, next);
    TrapTaken(c, m, bad, 0);
    VectorAligned(m.a.csr);
    if VectorBase(m.a.csr) + 4 <= |m.a.mem| {
      OtherWord(m.a.mem, m.a.pc + 4, next, 0, VectorBase(m.a.csr));
    }
    FetchSame(Issue(c, Patched(m, next), bad).m, Issue(c, Patched(m, 0), bad).m);
  }

  lemma TrapRoom(c: Config, m: Machine, bad: word)
    requires AtTrap(c, m, bad)
    ensures m.a.pc + 8 <= |m.a.mem| && (m.a.pc + 4) % 4 == 0
  {
  }

  lemma VectorAligned(csr: Csr)
    ensures VectorBase(csr) % 4 == 0
  {
  }

  lemma Apart(v: nat, at: nat)
    requires v % 4 == 0 && at % 4 == 0 && v != at
    ensures v + 4 <= at || at + 4 <= v
  {
  }

  /** One step halts exactly when the word fetched is a HALT. */
  lemma StepHaltTells(c: Config, m: Machine)
    requires !m.a.halt && !m.a.csr.mie
    ensures Step(c, m).Next? && Step(c, m).m.a.halt <==>
      BusServes(m.a.mem, m.a.pc) && Op(BusValue(m, m.a.pc)).Halt?
  {
    hide Issue, BusValue;
    if BusServes(m.a.mem, m.a.pc) {
      HaltTells(c, BusAfterRead(m, m.a.pc), BusValue(m, m.a.pc));
    }
  }

  /** Replaying an illegal word and its successor in the line is a run, whatever the successor, exactly when the
      vector is the successor's address or a breakpoint. */
  lemma TrapInBlockIff(c: Config, m: Machine, bad: word)
    requires AtTrap(c, m, bad)
    ensures (forall next: word ::
              Interprets(c, Patched(m, next), ExitOf(c, Replay(c, Patched(m, next), [bad, next])))) <==>
      VectorBase(m.a.csr) == m.a.pc + 4 || VectorBase(m.a.csr) in c.breakpoints
  {
    hide Interprets, Replay, Issue, Step, Patched;
    if VectorBase(m.a.csr) == m.a.pc + 4 || VectorBase(m.a.csr) in c.breakpoints {
      forall next: word
        ensures Interprets(c, Patched(m, next), ExitOf(c, Replay(c, Patched(m, next), [bad, next])))
      {
        GuardedTrapAgrees(c, m, bad, next);
      }
    } else {
      TrapTaken(c, m, bad, 0);
      TrapTaken(c, m, bad, HALT_WORD);
      var m0, m1 := Issue(c, Patched(m, 0), bad).m, Issue(c, Patched(m, HALT_WORD), bad).m;
      VectorFetch(c, m, bad, HALT_WORD);
      StepHaltTells(c, m0);
      StepHaltTells(c, m1);
      HaltTells(c, m0, 0);
      HaltTells(c, m1, HALT_WORD);
      if Interprets(c, Patched(m, 0), ExitOf(c, Replay(c, Patched(m, 0), [bad, 0]))) {
        StrayTrap(c, m, bad, 0);
      }
      if Interprets(c, Patched(m, HALT_WORD), ExitOf(c, Replay(c, Patched(m, HALT_WORD), [bad, HALT_WORD]))) {
        StrayTrap(c, m, bad, HALT_WORD);
      }
    }
  }
}
