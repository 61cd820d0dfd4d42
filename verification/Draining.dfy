/** The AXI queue is empty after every tick of the peripherals, however the host drives the machine: by single
    steps, by the interpreter loop, by the block-cached loop, in any order. */
module Draining {
  import opened Words
  import opened Isa
  import opened Machine
  import opened Blocks
  import opened Cycles
  import opened Sessions
  import Fabric

  // ---------------------------------------------------------------- drainable queues

  /** Every pending deadline is within four cycles of the fabric clock, and a pending queue's clock
      does not run ahead of the profiler. */
  ghost predicate Drainable(t: Timing) {
    && (forall k :: 0 <= k < |t.axi.pending| ==> t.axi.pending[k].complete <= t.axi.cur + 4)
    && (t.axi.pending != [] ==> t.axi.cur <= t.prof.cycles)
  }

  /** An offer is due at most four cycles later: latency two and at most two bursts. */
  lemma OfferDrainable(m: Machine, addr: word, bytes: word, isWrite: bool)
    requires Drainable(m.t) && bytes <= 2048
    ensures Drainable(OfferAxi(m, addr, bytes, isWrite).t)
  {
    var now := m.t.prof.cycles;
    var t := Fabric.Transaction(addr, bytes, isWrite, now, 0);
    assert m.t.axi.cfg.BurstBytes() == 1024;
    assert m.t.axi.cfg.Bursts(bytes) <= 2;
    var f := OfferAxi(m, addr, bytes, isWrite).t.axi;
    if !Fabric.Full(m.t.axi) {
      assert f.pending == m.t.axi.pending + [Fabric.Stamped(m.t.axi.cfg, t, now)];
    }
  }

  lemma MoreCycles(t: Timing, t': Timing)
    requires Drainable(t) && t'.axi == t.axi && t'.prof.cycles >= t.prof.cycles
    ensures Drainable(t')
  {
  }

  lemma HandleDrainable(c: Config, m: Machine, raw: word)
    requires Drainable(m.t) && !Op(raw).Unassigned?
    ensures Drainable(Handle(c, m, raw).m.t)
  {
    hide ExecLoad, ExecStore, ExecDmaLoad, ExecDmaStore, ExecAlu, ExecMov, ExecMovi, ExecLoadVr, ExecStoreVr;
    hide ExecVecAdd, ExecMatmul, ExecJump, ExecBranch, Drainable, OpcodeOf, CycleWeight;
    MemoryOps(c, m, raw);
    RegisterOps(c, m, raw);
    if Op(raw).Halt? {
      MoreCycles(m.t, Handle(c, m, raw).m.t);
    }
  }

  /** The other handlers touch nothing the clock drives. */
  lemma RegisterOps(c: Config, m: Machine, raw: word)
    requires Drainable(m.t)
    ensures Drainable(ExecAlu(m, raw).m.t) && Drainable(ExecMov(m, raw).m.t) && Drainable(ExecMovi(m, raw).m.t)
    ensures Drainable(ExecLoadVr(m, raw).m.t) && Drainable(ExecStoreVr(m, raw).m.t)
    ensures Drainable(ExecVecAdd(c, m, raw).m.t) && Drainable(ExecMatmul(c, m, raw).m.t)
    ensures Drainable(ExecJump(m, raw).m.t) && Drainable(ExecBranch(m, raw).m.t)
  {
    hide Splice, Read32, ProfileWeight, Effective, ReadGpr, WriteGpr, Rd, Ra, Rb, Func, Wrap, Op, LanesFrom, LaneBytes;
    hide Drainable;
  }

  lemma MemoryOps(c: Config, m: Machine, raw: word)
    requires Drainable(m.t)
    ensures Drainable(ExecLoad(m, raw).m.t) && Drainable(ExecStore(m, raw).m.t)
    ensures Drainable(ExecDmaLoad(c, m, raw).m.t) && Drainable(ExecDmaStore(c, m, raw).m.t)
  {
    hide Drainable, OfferAxi, ProfileWeight, Splice, Read32, Write32;
    LoadStoreDrainable(m, raw);
    hide ExecLoad, ExecStore;
    DmaDrainable(c, m, raw);
  }

  /** A handler that offers at most one short transaction keeps the queue drainable. */
  lemma OfferOrNot(m: Machine, t': Timing, addr: word, bytes: word, isWrite: bool)
    requires Drainable(m.t) && bytes <= 2048
    requires t'.axi == m.t.axi || t'.axi == OfferAxi(m, addr, bytes, isWrite).t.axi
    requires t'.prof.cycles >= m.t.prof.cycles
    ensures Drainable(t')
  {
    OfferDrainable(m, addr, bytes, isWrite);
    hide Drainable, Fabric.Issue;
    if t'.axi == m.t.axi {
      MoreCycles(m.t, t');
    } else {
      MoreCycles(OfferAxi(m, addr, bytes, isWrite).t, t');
    }
  }

  lemma LoadStoreDrainable(m: Machine, raw: word)
    requires Drainable(m.t)
    ensures Drainable(ExecLoad(m, raw).m.t) && Drainable(ExecStore(m, raw).m.t)
  {
    hide Drainable, Fabric.Issue, Read32, Write32, Effective;
    var addr := if Ra(raw) < NUM_GPR then Effective(m, raw) else 0;
    OfferOrNot(m, ExecLoad(m, raw).m.t, addr, 4, false);
    OfferOrNot(m, ExecStore(m, raw).m.t, addr, 4, true);
  }

  lemma DmaDrainable(c: Config, m: Machine, raw: word)
    requires Drainable(m.t)
    ensures Drainable(ExecDmaLoad(c, m, raw).m.t) && Drainable(ExecDmaStore(c, m, raw).m.t)
  {
    hide Drainable, Fabric.Issue, ProfileWeight, Splice;
    var dest := if Rd(raw) < NUM_GPR then ReadGpr(m.a.gpr, Rd(raw)) else 0;
    var src := if Ra(raw) < NUM_GPR then ReadGpr(m.a.gpr, Ra(raw)) else 0;
    OfferOrNot(m, ExecDmaLoad(c, m, raw).m.t, dest, Func(raw), false);
    OfferOrNot(m, ExecDmaStore(c, m, raw).m.t, src, Func(raw), true);
  }

  lemma ExecuteDrainable(c: Config, m: Machine, raw: word)
    requires Drainable(m.t)
    ensures Drainable(Execute(c, m, raw).m.t)
  {
    hide Handle, Drainable, Record;
    if !Op(raw).Unassigned? {
      HandleDrainable(c, m, raw);
      RecordGrows(Handle(c, m, raw).m.t.prof, raw);
      if Handle(c, m, raw).Done? {
        MoreCycles(Handle(c, m, raw).m.t, Execute(c, m, raw).m.t);
      }
    }
  }

  /** A tick of a thousand cycles completes everything that is pending. */
  lemma TickDrains(t: Timing)
    requires Drainable(t) && t.accum >= CYCLES_PER_TICK
    ensures TickOnce(t).axi.pending == [] && Drainable(TickOnce(t))
  {
    Fabric.DueAll(t.axi.pending, t.axi.cur + CYCLES_PER_TICK);
  }

  lemma {:induction false} TicksDrain(t: Timing)
    requires Drainable(t)
    ensures Drainable(TickPeripherals(t))
    ensures t.accum >= CYCLES_PER_TICK ==> TickPeripherals(t).axi.pending == []
    decreases t.accum
  {
    if t.accum >= CYCLES_PER_TICK {
      TickDrains(t);
      TicksDrain(TickOnce(t));
    }
  }

  // ---------------------------------------------------------------- one word, one step

  /** Did the outcome move the peripherals' clock, and is the queue empty if it did? */
  predicate TickEmpties(m: Machine, out: Outcome) {
    out.Next? && out.m.t.pcie.cur > m.t.pcie.cur ==> out.m.t.axi.pending == []
  }

  /** Executing a fetched word keeps the queue drainable, and leaves it empty if the peripherals tick. */
  lemma IssueDrains(c: Config, m: Machine, raw: word)
    requires Drainable(m.t)
    ensures Drainable(Issue(c, m, raw).m.t) && TickEmpties(m, Issue(c, m, raw))
  {
    hide Execute, TickPeripherals, Drainable;
    ExecuteDrainable(c, Advance(m), raw);
    var out := Execute(c, Advance(m), raw);
    if out.Next? {
      ExecuteBooks(c, Advance(m), raw);
      TickBooks(out.m.t);
      TicksDrain(out.m.t);
    }
  }

  lemma StepDrains(c: Config, m: Machine)
    requires Drainable(m.t)
    ensures Drainable(Step(c, m).m.t) && TickEmpties(m, Step(c, m))
  {
    hide EnterInterrupt, BusValue, BusAfterRead, Issue, Drainable;
    var m1 := EnterInterrupt(m);
    FetchBooks(m);
    if !m.a.halt {
      MoreCycles(m.t, m1.t);
      if BusServes(m1.a.mem, m1.a.pc) {
        var m2 := BusAfterRead(m1, m1.a.pc);
        MoreCycles(m.t, m2.t);
        IssueDrains(c, m2, BusValue(m1, m1.a.pc));
      }
    }
  }

  // ---------------------------------------------------------------- runs of both loops

  lemma {:induction false} RunDrains(c: Config, m: Machine, n: nat)
    requires Drainable(m.t)
    ensures Drainable(Run(c, m, n).m.t)
    decreases n
  {
    hide Step, Drainable;
    if n > 0 && !AtRest(c, m) {
      StepDrains(c, m);
      if Step(c, m).Next? {
        RunDrains(c, Step(c, m).m, n - 1);
      }
    }
  }

  lemma {:induction false} ReplayDrains(c: Config, m: Machine, ops: seq<word>)
    requires Drainable(m.t)
    ensures Drainable(Replay(c, m, ops).m.t)
    decreases |ops|
  {
    hide Issue, Drainable, EndsBlock;
    if ops != [] && !AtRest(c, m) {
      IssueDrains(c, m, ops[0]);
      if Issue(c, m, ops[0]).Next? {
        ReplayDrains(c, Issue(c, m, ops[0]).m, ops[1..]);
      }
    }
  }

  lemma TurnDrains(c: Config, m: Machine, k: Cache)
    requires Drainable(m.t)
    ensures Drainable(Turn(c, m, k).1.m.t)
  {
    hide Step, Drainable, Replay, Translate;
    StepDrains(c, m);
    var found := Fetch(k, m.a.mem, m.a.pc).1;
    if found.Found? {
      ReplayDrains(c, m, found.block.ops);
    }
  }

  lemma {:induction false} FastRunDrains(c: Config, m: Machine, k: Cache, n: nat)
    requires Drainable(m.t)
    ensures Drainable(FastRun(c, m, k, n).1.m.t)
    decreases n
  {
    hide Turn, Drainable;
    if n > 0 && !AtRest(c, m) {
      TurnDrains(c, m, k);
      var (k1, out) := Turn(c, m, k);
      if out.Next? {
        FastRunDrains(c, out.m, k1, n - 1);
      }
    }
  }

  // ---------------------------------------------------------------- sessions

  lemma {:induction false} SessionDrains(s: Session, calls: seq<Call>)
    requires Drainable(s.m.t)
    ensures Drainable(After(s, calls).m.t)
  {
    hide Step, Run, FastRun, Drainable;
    if calls != [] {
      SessionDrains(s, calls[..|calls| - 1]);
      var t := After(s, calls[..|calls| - 1]);
      match calls[|calls| - 1]
      case StepCall(c) => StepDrains(c, t.m);
      case RunCall(c, steps) => RunDrains(c, t.m, steps);
      case FastCall(c, turns) => FastRunDrains(c, t.m, t.k, turns);
      case Load(a, k) => MoreCycles(t.m.t, t.m.(a := a).t);
    }
  }

  lemma FreshDrainable(t: Timing)
    requires Fresh(t)
    ensures Drainable(t)
  {
  }

  /** After any calls: a step that ticks the peripherals leaves no AXI transaction outstanding, and so does any
      word replayed by the block-cached loop, `done` being the words of its block replayed before. Calls can
      stop anywhere, so these are all the ticks there are. */
  lemma SessionTicksEmpty(s: Session, calls: seq<Call>, c: Config, done: seq<word>, raw: word)
    requires Drainable(s.m.t)
    ensures var m := After(s, calls).m;
      && TickEmpties(m, Step(c, m))
      && (Replay(c, m, done).Next? ==> TickEmpties(Replay(c, m, done).m, Issue(c, Replay(c, m, done).m, raw)))
  {
    hide After, Step, Issue, Replay, Drainable, TickEmpties;
    SessionDrains(s, calls);
    var m := After(s, calls).m;
    StepDrains(c, m);
    ReplayDrains(c, m, done);
    IssueDrains(c, Replay(c, m, done).m, raw);
  }

  /** In particular from the constructor. */
  lemma QueueEmptyAfterEveryTick(scratchpad: nat, ram: nat, calls: seq<Call>, c: Config, done: seq<word>, raw: word)
    ensures var m := After(Session(PowerOn(scratchpad, ram), EMPTY), calls).m;
      && TickEmpties(m, Step(c, m))
      && (Replay(c, m, done).Next? ==> TickEmpties(Replay(c, m, done).m, Issue(c, Replay(c, m, done).m, raw)))
  {
    hide PowerOn, After, Step, Issue, Replay, Drainable, Fresh, TickEmpties;
    PowerOnFresh(scratchpad, ram);
    FreshDrainable(PowerOn(scratchpad, ram).t);
    SessionTicksEmpty(Session(PowerOn(scratchpad, ram), EMPTY), calls, c, done, raw);
  }
}
