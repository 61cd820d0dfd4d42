/** What one instruction can and cannot change. */
module StepFacts {
  import opened Words
  import opened Isa
  import opened Machine
  import Fabric

  /** Memory sizes, control registers and HALT are as before. */
  predicate Framed(m: Machine, m': Machine) {
    && |m'.a.mem| == |m.a.mem| && |m'.a.ram| == |m.a.ram| && m'.a.csr == m.a.csr && m'.a.halt == m.a.halt
  }

  lemma MemoryFramed(c: Config, m: Machine, raw: word)
    ensures Framed(m, ExecLoad(m, raw).m) && ExecLoad(m, raw).m.a.pc == m.a.pc
    ensures Framed(m, ExecStore(m, raw).m) && ExecStore(m, raw).m.a.pc == m.a.pc
    ensures Framed(m, ExecDmaLoad(c, m, raw).m) && ExecDmaLoad(c, m, raw).m.a.pc == m.a.pc
    ensures Framed(m, ExecDmaStore(c, m, raw).m) && ExecDmaStore(c, m, raw).m.a.pc == m.a.pc
  {
    hide Splice, Read32, Write32, ProfileWeight, Record, Effective, ReadGpr, WriteGpr, Rd, Ra, Func, Wrap;
  }

  lemma RegisterFramed(c: Config, m: Machine, raw: word)
    ensures Framed(m, ExecAlu(m, raw).m) && ExecAlu(m, raw).m.a.pc == m.a.pc
    ensures Framed(m, ExecMov(m, raw).m) && ExecMov(m, raw).m.a.pc == m.a.pc
    ensures Framed(m, ExecMovi(m, raw).m) && ExecMovi(m, raw).m.a.pc == m.a.pc
    ensures Framed(m, ExecLoadVr(m, raw).m) && ExecLoadVr(m, raw).m.a.pc == m.a.pc
    ensures Framed(m, ExecStoreVr(m, raw).m) && ExecStoreVr(m, raw).m.a.pc == m.a.pc
    ensures Framed(m, ExecVecAdd(c, m, raw).m) && ExecVecAdd(c, m, raw).m.a.pc == m.a.pc
    ensures Framed(m, ExecMatmul(c, m, raw).m) && ExecMatmul(c, m, raw).m.a.pc == m.a.pc
    ensures Framed(m, ExecJump(m, raw).m) && Framed(m, ExecBranch(m, raw).m)
  {
    hide Splice, Read32, ProfileWeight, Effective, ReadGpr, WriteGpr, Rd, Ra, Func, Wrap, Op, LanesFrom, LaneBytes;
  }

  /** Handlers keep the memory sizes and never touch a control register; only control flow moves
      pc, and only HALT halts. */
  lemma HandleFrame(c: Config, m: Machine, raw: word)
    requires !Op(raw).Unassigned?
    ensures var h := Handle(c, m, raw);
      && |h.m.a.mem| == |m.a.mem| && |h.m.a.ram| == |m.a.ram|
      && h.m.a.csr == m.a.csr
      && (!EndsBlock(raw) ==> h.m.a.pc == m.a.pc)
      && (h.Done? && h.m.a.halt != m.a.halt ==> Op(raw).Halt?)
  {
    MemoryFramed(c, m, raw);
    RegisterFramed(c, m, raw);
    EndsBlockOpcodes(raw);
    hide ExecLoad, ExecStore, ExecDmaLoad, ExecDmaStore, ExecAlu, ExecMov, ExecMovi, ExecLoadVr, ExecStoreVr;
    hide ExecVecAdd, ExecMatmul, ExecJump, ExecBranch, Op, EndsBlock;
  }

  /** Every opcode but STORE, STORE_VR and DMA_LOAD leaves the scratchpad alone. */
  predicate MayWrite(raw: word) {
    Op(raw).Store? || Op(raw).StoreVr? || Op(raw).DmaLoad?
  }

  lemma HandleKeepsMem(c: Config, m: Machine, raw: word)
    requires !Op(raw).Unassigned? && !MayWrite(raw)
    ensures Handle(c, m, raw).m.a.mem == m.a.mem
  {
    hide Splice, Read32, ProfileWeight;
  }

  /** No opcode writes a control register: an instruction leaves them alone unless its opcode is
      unassigned and a trap vector is set. */
  lemma ExecuteCsr(c: Config, m: Machine, raw: word)
    ensures var csr := Execute(c, m, raw).m.a.csr;
      csr == if Op(raw).Unassigned? && m.a.csr.mtvec != 0
             then TakeTrap(m.a.csr, 2, raw, Wrap(m.a.pc - 4)) else m.a.csr
  {
    if !Op(raw).Unassigned? {
      HandleFrame(c, m, raw);
    }
  }

  lemma IssueFrame(c: Config, m: Machine, raw: word)
    ensures var out := Issue(c, m, raw);
      && |out.m.a.mem| == |m.a.mem| && |out.m.a.ram| == |m.a.ram|
      && out.m.a.csr == (if Op(raw).Unassigned? && m.a.csr.mtvec != 0
                         then TakeTrap(m.a.csr, 2, raw, m.a.pc) else m.a.csr)
      && (out.Next? && !EndsBlock(raw) ==>
            out.m.a.pc == if Op(raw).Unassigned? then VectorBase(m.a.csr) else Wrap(m.a.pc + 4))
      && (out.Next? && Op(raw).Unassigned? ==> m.a.csr.mtvec != 0)
  {
    ExecuteCsr(c, Advance(m), raw);
    if !Op(raw).Unassigned? {
      HandleFrame(c, Advance(m), raw);
    }
  }

  /** The vector and the enable mask are constants of every step; interrupts are never re-enabled. */
  lemma StepCsr(c: Config, m: Machine)
    ensures var csr := Step(c, m).m.a.csr;
      && csr.mtvec == m.a.csr.mtvec && csr.enabled == m.a.csr.enabled
      && (csr.mie ==> m.a.csr.mie)
  {
    if !m.a.halt {
      var m1 := EnterInterrupt(m);
      if BusServes(m1.a.mem, m1.a.pc) {
        IssueFrame(c, BusAfterRead(m1, m1.a.pc), BusValue(m1, m1.a.pc));
      }
    }
  }

  /** A handler that throws has written nothing to memory yet. */
  lemma HandleFailedMem(c: Config, m: Machine, raw: word)
    requires !Op(raw).Unassigned? && Handle(c, m, raw).Failed?
    ensures Handle(c, m, raw).m.a.mem == m.a.mem
  {
    hide Splice, Read32, Write32, ProfileWeight, Record, ReadGpr, WriteGpr, Rd, Ra, Rb, Func, Wrap, LanesFrom, LaneBytes;
  }

  lemma ThrownKeepsMem(c: Config, m: Machine)
    requires Step(c, m).Thrown?
    ensures Step(c, m).m.a.mem == m.a.mem
  {
    hide Handle, TickPeripherals, BusValue;
    var m1 := EnterInterrupt(m);
    if BusServes(m1.a.mem, m1.a.pc) {
      var raw := BusValue(m1, m1.a.pc);
      if !Op(raw).Unassigned? && Handle(c, Advance(BusAfterRead(m1, m1.a.pc)), raw).Failed? {
        HandleFailedMem(c, Advance(BusAfterRead(m1, m1.a.pc)), raw);
      }
    }
  }

  /** Number of interrupts taken in the first n steps. */
  function InterruptsTaken(c: Config, m: Machine, n: nat): nat
    decreases n
  {
    if n == 0 || AtRest(c, m) then 0
    else
      (if PendingInterrupt(m).Interrupt? then 1 else 0)
      + match Step(c, m)
        case Thrown(_, _) => 0
        case Next(m1) => InterruptsTaken(c, m1, n - 1)
  }

  /** Since entry clears mie and nothing a program does sets it again, a run takes at most one
      interrupt, and none if it starts with interrupts disabled. */
  lemma {:induction false} AtMostOneInterrupt(c: Config, m: Machine, n: nat)
    ensures InterruptsTaken(c, m, n) <= if m.a.csr.mie then 1 else 0
    decreases n
  {
    hide Step;
    if n > 0 && !AtRest(c, m) {
      StepCsr(c, m);
      if PendingInterrupt(m).Interrupt? {
        InterruptClearsMie(c, m);
      }
      match Step(c, m)
      case Thrown(_, _) =>
      case Next(m1) => AtMostOneInterrupt(c, m1, n - 1);
    }
  }

  lemma InterruptClearsMie(c: Config, m: Machine)
    requires !m.a.halt && PendingInterrupt(m).Interrupt?
    ensures !Step(c, m).m.a.csr.mie
  {
    var m1 := EnterInterrupt(m);
    if BusServes(m1.a.mem, m1.a.pc) {
      IssueFrame(c, BusAfterRead(m1, m1.a.pc), BusValue(m1, m1.a.pc));
    }
  }
}
