/** The timer over whole runs: untouched by the program, it fires once per limit of ticked cycles. */
module Expiry {
  import opened Words
  import opened Isa
  import opened Machine
  import opened Cycles
  import Fabric

  predicate WordTimerFree(m: Machine, raw: word) {
    (Op(raw).Load? || Op(raw).Store?) && Ra(raw) < NUM_GPR ==> !InTimer(Effective(m, raw))
  }

  /** The next step neither fetches from nor loads or stores in the timer window. */
  predicate StepTimerFree(m: Machine) {
    var m1 := EnterInterrupt(m);
    !InTimer(m1.a.pc) && (BusServes(m1.a.mem, m1.a.pc) ==> WordTimerFree(m1, BusValue(m1, m1.a.pc)))
  }

  lemma MemoryKeepsTimer(m: Machine, raw: word)
    requires WordTimerFree(m, raw)
    ensures Op(raw).Load? ==> ExecLoad(m, raw).m.t.timer == m.t.timer
    ensures Op(raw).Store? ==> ExecStore(m, raw).m.t.timer == m.t.timer
  {
    hide Read32, Write32, Op;
  }

  lemma ExecuteKeepsTimer(c: Config, m: Machine, raw: word)
    requires WordTimerFree(m, raw)
    ensures Execute(c, m, raw).m.t.timer == m.t.timer
  {
    hide Splice, ProfileWeight, Record;
    MemoryKeepsTimer(m, raw);
    hide ExecLoad, ExecStore;
  }

  lemma {:induction false} TicksTimer(t: Timing, k: nat)
    requires k == t.accum / 1000
    ensures TickPeripherals(t).timer == Ticks(t.timer, k).0
    decreases k
  {
    hide TimerTick, Fabric.Tick;
    if k > 0 {
      TicksTimer(TickOnce(t), k - 1);
    }
  }

  /** Each step advances the timer by the ticks it hands over, as the pcie clock shows them. */
  lemma StepTimer(c: Config, m: Machine)
    requires !m.a.halt && StepTimerFree(m) && Step(c, m).Next?
    ensures var t' := Step(c, m).m.t;
      && t'.pcie.cur >= m.t.pcie.cur && (t'.pcie.cur - m.t.pcie.cur) % 1000 == 0
      && t'.timer == Ticks(m.t.timer, (t'.pcie.cur - m.t.pcie.cur) / 1000).0
  {
    hide EnterInterrupt, BusValue, Execute, TickPeripherals, WordTimerFree;
    var m1 := EnterInterrupt(m);
    FetchBooks(m);
    var raw := BusValue(m1, m1.a.pc);
    assert BusAfterRead(m1, m1.a.pc) == m1;
    AdvanceTimerFree(m1, raw);
    ExecuteKeepsTimer(c, Advance(m1), raw);
    var out := Execute(c, Advance(m1), raw);
    ExecuteBooks(c, Advance(m1), raw);
    TickBooks(out.m.t);
    TicksTimer(out.m.t, out.m.t.accum / 1000);
  }

  lemma AdvanceTimerFree(m: Machine, raw: word)
    requires WordTimerFree(m, raw)
    ensures WordTimerFree(Advance(m), raw)
  {
  }

  lemma {:induction false} TicksCompose(t: Timer, j: nat, k: nat)
    ensures Ticks(Ticks(t, j).0, k).0 == Ticks(t, j + k).0
    decreases j
  {
    if j > 0 {
      TicksCompose(TimerTick(t, CYCLES_PER_TICK), j - 1, k);
    }
  }

  /** Along the whole run the timer window is left alone. */
  ghost predicate TimerFree(c: Config, m: Machine) {
    forall n: nat :: Run(c, m, n).Running? ==> StepTimerFree(Run(c, m, n).m)
  }

  lemma TimerFreeStep(c: Config, m: Machine)
    requires TimerFree(c, m) && !AtRest(c, m)
    ensures StepTimerFree(m)
    ensures Step(c, m).Next? ==> TimerFree(c, Step(c, m).m)
  {
    hide Step, StepTimerFree;
    var zero: nat := 0;
    assert Run(c, m, zero) == Running(m);
    if Step(c, m).Next? {
      var m1 := Step(c, m).m;
      forall n: nat | Run(c, m1, n).Running?
        ensures StepTimerFree(Run(c, m1, n).m)
      {
        assert Run(c, m, n + 1) == Run(c, m1, n);
      }
    }
  }

  lemma {:induction false} RunTimer(c: Config, m: Machine, n: nat)
    requires TimerFree(c, m) && !Run(c, m, n).Threw?
    ensures var t' := Run(c, m, n).m.t;
      && t'.pcie.cur >= m.t.pcie.cur && (t'.pcie.cur - m.t.pcie.cur) % 1000 == 0
      && t'.timer == Ticks(m.t.timer, (t'.pcie.cur - m.t.pcie.cur) / 1000).0
    decreases n
  {
    hide Step, Ticks;
    NoTicks(m.t.timer);
    if n > 0 && !AtRest(c, m) {
      TimerFreeStep(c, m);
      StepTimer(c, m);
      var m1, m2 := Step(c, m).m, Run(c, m, n).m;
      RunTimer(c, m1, n - 1);
      Thousands(m.t.pcie.cur, m1.t.pcie.cur, m2.t.pcie.cur);
      TicksCompose(m.t.timer, (m1.t.pcie.cur - m.t.pcie.cur) / 1000, (m2.t.pcie.cur - m1.t.pcie.cur) / 1000);
    }
  }

  lemma Thousands(x: nat, y: nat, z: nat)
    requires x <= y <= z && (y - x) % 1000 == 0 && (z - y) % 1000 == 0
    ensures (z - x) % 1000 == 0 && (z - x) / 1000 == (y - x) / 1000 + (z - y) / 1000
  {
  }

  lemma NoTicks(t: Timer)
    ensures Ticks(t, 0).0 == t
  {
  }

  /** A running timer the program leaves alone: after any completed steps of a fresh machine its count is
      what remains of the ticked cycles, and its flag is up exactly when a limit's worth has passed. */
  lemma TimerOverRun(c: Config, m: Machine, n: nat)
    requires TimerFree(c, m) && !Run(c, m, n).Threw? && m.t.pcie.cur == 0
    requires m.t.timer.ctrl && m.t.timer.limit >= CYCLES_PER_TICK && m.t.timer.count < m.t.timer.limit
    ensures var t, t' := m.t.timer, Run(c, m, n).m.t;
      && t'.timer.count == (t.count + t'.pcie.cur) % t.limit
      && t'.timer.irq == (t.irq || t.count + t'.pcie.cur >= t.limit)
  {
    hide Run, Ticks;
    RunTimer(c, m, n);
    var t' := Run(c, m, n).m.t;
    var k := t'.pcie.cur / 1000;
    TimerExpiries(m.t.timer, k);
    TimerExpiryCount(m.t.timer, k);
    FiredAtAll(m.t.timer.limit, m.t.timer.count + t'.pcie.cur, Ticks(m.t.timer, k).1, t'.timer.count);
  }

  lemma FiredAtAll(limit: nat, total: nat, fired: nat, left: nat)
    requires left < limit && fired * limit + left == total
    ensures fired > 0 <==> total >= limit
  {
    TooFar(fired, limit);
  }
}
