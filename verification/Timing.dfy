/** What a target profile can and cannot change: timing never leaks into what a program sees, short of reading the
    clock itself. */
module Timing {
  import opened Words
  import opened Isa
  import opened Tensor
  import opened Tiles
  import opened Machine
  import opened StepFacts
  import Fabric

  // ---------------------------------------------------------------- profiles change timing only

  /** Two configurations that differ at most in profile, acceleration and logging. */
  ghost predicate SameSetup(c1: Config, c2: Config) {
    c1.breakpoints == c2.breakpoints && c1.fpu == c2.fpu
  }

  /** Equal in everything a program can observe without reading the clock. */
  predicate SameArch(m1: Machine, m2: Machine) {
    m1.a == m2.a && m1.t.timer.limit == m2.t.timer.limit && m1.t.timer.ctrl == m2.t.timer.ctrl
  }

  /** The count and interrupt registers of the timer are the only clock a program can read. */
  predicate ReadsClock(addr: nat) {
    addr == MMIO_BASE || addr == MMIO_BASE + 0xC
  }

  predicate WordClockFree(m: Machine, raw: word) {
    Op(raw).Load? && Ra(raw) < NUM_GPR ==> !ReadsClock(Effective(m, raw))
  }

  /** The next step neither fetches nor loads from the clock. */
  predicate StepClockFree(m: Machine) {
    !ReadsClock(m.a.pc) && (BusServes(m.a.mem, m.a.pc) ==> WordClockFree(m, BusValue(m, m.a.pc)))
  }

  predicate SameHandled(h1: Handled, h2: Handled) {
    h1.Done? == h2.Done? && SameArch(h1.m, h2.m) && (h1.Failed? ==> h1.fault == h2.fault)
  }

  predicate SameOutcome(o1: Outcome, o2: Outcome) {
    o1.Next? == o2.Next? && SameArch(o1.m, o2.m) && (o1.Thrown? ==> o1.fault == o2.fault)
  }

  predicate SameExit(x1: Exit, x2: Exit) {
    && x1.Running? == x2.Running? && x1.Stopped? == x2.Stopped?
    && SameArch(x1.m, x2.m) && (x1.Threw? ==> x1.fault == x2.fault)
  }

  lemma BusSame(m1: Machine, m2: Machine, addr: nat)
    requires SameArch(m1, m2)
    ensures SameArch(BusAfterRead(m1, addr), BusAfterRead(m2, addr))
    ensures BusServes(m1.a.mem, addr) && !ReadsClock(addr) ==> BusValue(m1, addr) == BusValue(m2, addr)
  {
  }

  lemma BusWriteSame(m1: Machine, m2: Machine, addr: nat, v: word)
    requires SameArch(m1, m2) && BusServes(m1.a.mem, addr)
    ensures SameArch(BusWrite(m1, addr, v), BusWrite(m2, addr, v))
  {
  }

  lemma LoadStoreSame(m1: Machine, m2: Machine, raw: word)
    requires SameArch(m1, m2)
    ensures WordClockFree(m1, raw) && Op(raw).Load? ==> SameHandled(ExecLoad(m1, raw), ExecLoad(m2, raw))
    ensures SameHandled(ExecStore(m1, raw), ExecStore(m2, raw))
  {
    if Ra(raw) < NUM_GPR {
      var addr := Effective(m1, raw);
      var n1, n2 := OfferAxi(m1, addr, 4, false), OfferAxi(m2, addr, 4, false);
      BusSame(n1, n2, addr);
      if Rd(raw) < NUM_GPR && BusServes(m1.a.mem, addr) {
        BusWriteSame(OfferAxi(m1, addr, 4, true), OfferAxi(m2, addr, 4, true), addr, ReadGpr(m1.a.gpr, Rd(raw)));
      }
    }
  }

  lemma ScalarSame(m1: Machine, m2: Machine, raw: word)
    requires SameArch(m1, m2)
    ensures SameHandled(ExecAlu(m1, raw), ExecAlu(m2, raw))
    ensures SameHandled(ExecJump(m1, raw), ExecJump(m2, raw))
    ensures SameHandled(ExecBranch(m1, raw), ExecBranch(m2, raw))
    ensures SameHandled(ExecMov(m1, raw), ExecMov(m2, raw))
    ensures SameHandled(ExecMovi(m1, raw), ExecMovi(m2, raw))
  {
  }

  lemma SpillSame(m1: Machine, m2: Machine, raw: word)
    requires SameArch(m1, m2)
    ensures SameHandled(ExecLoadVr(m1, raw), ExecLoadVr(m2, raw))
    ensures SameHandled(ExecStoreVr(m1, raw), ExecStoreVr(m2, raw))
  {
    hide LanesFrom, LaneBytes, Splice, Wrap, Rd, Ra, ReadGpr, Simm16;
  }

  lemma VectorSame(c1: Config, m1: Machine, c2: Config, m2: Machine, raw: word)
    requires SameSetup(c1, c2) && SameArch(m1, m2)
    ensures SameHandled(ExecVecAdd(c1, m1, raw), ExecVecAdd(c2, m2, raw))
    ensures SameHandled(ExecMatmul(c1, m1, raw), ExecMatmul(c2, m2, raw))
  {
    hide ProfileWeight, VecAdded, MatmulTiled, Rd, Ra, Rb, TileSize;
  }

  lemma DmaSame(c1: Config, m1: Machine, c2: Config, m2: Machine, raw: word)
    requires SameArch(m1, m2)
    ensures SameHandled(ExecDmaLoad(c1, m1, raw), ExecDmaLoad(c2, m2, raw))
    ensures SameHandled(ExecDmaStore(c1, m1, raw), ExecDmaStore(c2, m2, raw))
  {
    DmaLoadSame(c1, m1, c2, m2, raw);
    DmaStoreSame(c1, m1, c2, m2, raw);
    hide ExecDmaLoad, ExecDmaStore;
  }

  lemma DmaLoadSame(c1: Config, m1: Machine, c2: Config, m2: Machine, raw: word)
    requires SameArch(m1, m2)
    ensures SameHandled(ExecDmaLoad(c1, m1, raw), ExecDmaLoad(c2, m2, raw))
  {
    hide ProfileWeight, Record, Splice, ReadGpr, Rd, Ra, Func, Wrap, Fabric.Full, Fabric.Issue;
  }

  lemma DmaStoreSame(c1: Config, m1: Machine, c2: Config, m2: Machine, raw: word)
    requires SameArch(m1, m2)
    ensures SameHandled(ExecDmaStore(c1, m1, raw), ExecDmaStore(c2, m2, raw))
  {
    hide ProfileWeight, Record, Splice, ReadGpr, Rd, Ra, Func, Wrap, Fabric.Full, Fabric.Issue;
  }

  lemma HandleSame(c1: Config, m1: Machine, c2: Config, m2: Machine, raw: word)
    requires SameSetup(c1, c2) && SameArch(m1, m2) && WordClockFree(m1, raw) && !Op(raw).Unassigned?
    ensures SameHandled(Handle(c1, m1, raw), Handle(c2, m2, raw))
  {
    hide ExecAlu, ExecJump, ExecBranch, ExecMov, ExecMovi, ExecLoadVr, ExecStoreVr, ExecVecAdd, ExecMatmul;
    hide ExecDmaLoad, ExecDmaStore, ExecLoad, ExecStore, Op;
    ScalarSame(m1, m2, raw);
    SpillSame(m1, m2, raw);
    VectorSame(c1, m1, c2, m2, raw);
    DmaSame(c1, m1, c2, m2, raw);
    LoadStoreSame(m1, m2, raw);
  }

  lemma {:induction false} TickSame(t: Timing)
    ensures TickPeripherals(t).timer.limit == t.timer.limit && TickPeripherals(t).timer.ctrl == t.timer.ctrl
    decreases t.accum
  {
    if t.accum >= CYCLES_PER_TICK {
      TickSame(TickOnce(t));
    }
  }

  lemma IssueSame(c1: Config, m1: Machine, c2: Config, m2: Machine, raw: word)
    requires SameSetup(c1, c2) && SameArch(m1, m2) && WordClockFree(m1, raw)
    ensures SameOutcome(Issue(c1, m1, raw), Issue(c2, m2, raw))
  {
    if !Op(raw).Unassigned? {
      HandleSame(c1, Advance(m1), c2, Advance(m2), raw);
    }
    hide Handle, TickPeripherals;
    var o1, o2 := Execute(c1, Advance(m1), raw), Execute(c2, Advance(m2), raw);
    TickSame(o1.m.t);
    TickSame(o2.m.t);
  }

  /** One step under two profiles: same outcome, same exception, same architectural state. */
  lemma StepSame(c1: Config, m1: Machine, c2: Config, m2: Machine)
    requires SameSetup(c1, c2) && SameArch(m1, m2) && !m1.a.csr.mie && StepClockFree(m1)
    ensures SameOutcome(Step(c1, m1), Step(c2, m2))
  {
    hide Issue, BusValue, BusAfterRead;
    if !m1.a.halt {
      BusSame(m1, m2, m1.a.pc);
      if BusServes(m1.a.mem, m1.a.pc) {
        var raw := BusValue(m1, m1.a.pc);
        FetchKeepsArch(m1);
        IssueSame(c1, BusAfterRead(m1, m1.a.pc), c2, BusAfterRead(m2, m2.a.pc), raw);
      }
    }
  }

  lemma FetchKeepsArch(m: Machine)
    requires StepClockFree(m) && BusServes(m.a.mem, m.a.pc)
    ensures WordClockFree(BusAfterRead(m, m.a.pc), BusValue(m, m.a.pc))
  {
  }

  /** Along the whole run no instruction reads the clock. */
  ghost predicate ClockFree(c: Config, m: Machine) {
    forall n: nat :: Run(c, m, n).Running? ==> StepClockFree(Run(c, m, n).m)
  }

  lemma ClockFreeStep(c: Config, m: Machine)
    requires ClockFree(c, m) && !AtRest(c, m)
    ensures StepClockFree(m)
    ensures Step(c, m).Next? ==> ClockFree(c, Step(c, m).m)
  {
    hide Step, StepClockFree;
    var zero: nat := 0;
    assert Run(c, m, zero) == Running(m);
    if Step(c, m).Next? {
      var m1 := Step(c, m).m;
      forall n: nat | Run(c, m1, n).Running?
        ensures StepClockFree(Run(c, m1, n).m)
      {
        assert Run(c, m, n + 1) == Run(c, m1, n);
      }
    }
  }

  /** Timing never leaks into architecture: with interrupts off and the clock unread, any two profiles
      give the same registers, memories, devices and exceptions after every number of steps. */
  lemma {:induction false} ProfilesAgree(c1: Config, m1: Machine, c2: Config, m2: Machine, n: nat)
    requires SameSetup(c1, c2) && SameArch(m1, m2) && !m1.a.csr.mie && ClockFree(c1, m1)
    ensures SameExit(Run(c1, m1, n), Run(c2, m2, n))
    decreases n
  {
    hide Step;
    if n > 0 && !AtRest(c1, m1) {
      ClockFreeStep(c1, m1);
      StepSame(c1, m1, c2, m2);
      StepCsr(c1, m1);
      if Step(c1, m1).Next? {
        ProfilesAgree(c1, Step(c1, m1).m, c2, Step(c2, m2).m, n - 1);
      }
    }
  }

  /** The clock really is the boundary: a load of the count register gives equal states exactly when
      the two counts agree as words, and of the interrupt register exactly when the flags agree. */
  lemma ClockLoadIff(m1: Machine, m2: Machine, raw: word)
    requires SameArch(m1, m2) && Op(raw).Load? && Ra(raw) < NUM_GPR && 0 < Rd(raw) < NUM_GPR
    ensures Effective(m1, raw) == MMIO_BASE ==>
      (SameHandled(ExecLoad(m1, raw), ExecLoad(m2, raw)) <==> Wrap(m1.t.timer.count) == Wrap(m2.t.timer.count))
    ensures Effective(m1, raw) == MMIO_BASE + 0xC ==>
      (SameHandled(ExecLoad(m1, raw), ExecLoad(m2, raw)) <==> m1.t.timer.irq == m2.t.timer.irq)
  {
    hide Op, Wrap, Rd, Ra;
    var rd := Rd(raw);
    var addr := Effective(m1, raw);
    if addr == MMIO_BASE || addr == MMIO_BASE + 0xC {
      var v1, v2 := BusValue(OfferAxi(m1, addr, 4, false), addr), BusValue(OfferAxi(m2, addr, 4, false), addr);
      WrittenIff(m1.a.gpr, rd, v1, v2);
      BusSame(OfferAxi(m1, addr, 4, false), OfferAxi(m2, addr, 4, false), addr);
    }
  }

  lemma WrittenIff(gpr: Gprs, rd: nat, v1: word, v2: word)
    requires 0 < rd < NUM_GPR
    ensures WriteGpr(gpr, rd, v1) == WriteGpr(gpr, rd, v2) <==> v1 == v2
  {
    assert WriteGpr(gpr, rd, v1)[rd] == v1 && WriteGpr(gpr, rd, v2)[rd] == v2;
  }
}
