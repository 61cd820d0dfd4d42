/** Where every cycle goes: conservation between profiler, tick accumulator and fabric clock, and the
    timer's expiries. */
module Cycles {
  import opened Words
  import opened Isa
  import opened Machine
  import opened StepFacts
  import Fabric

  // ---------------------------------------------------------------- books

  function Sum(hist: seq<nat>): nat {
    if hist == [] then 0 else hist[0] + Sum(hist[1..])
  }

  lemma {:induction false} SumBump(hist: seq<nat>, k: nat)
    requires k < |hist|
    ensures Sum(hist[k := hist[k] + 1]) == Sum(hist) + 1
  {
    var bumped := hist[k := hist[k] + 1];
    if k == 0 {
      assert bumped[1..] == hist[1..];
    } else {
      SumBump(hist[1..], k - 1);
      assert bumped[1..] == hist[1..][k - 1 := hist[1..][k - 1] + 1];
    }
  }

  /** Cycles the profiler shows beyond those handed to the peripherals or still in the accumulator.
      The pcie clock is moved by ticks alone, so it counts the cycles already handed over. */
  function Excess(t: Timing): int {
    t.prof.cycles - t.pcie.cur - t.accum
  }

  /** The word at pc is a DMA_LOAD that finds the fabric full and still completes. */
  predicate RefusedLoad(c: Config, m: Machine, raw: word) {
    Op(raw).DmaLoad? && Fabric.Full(m.t.axi) && Execute(c, m, raw).Next?
  }

  predicate Balanced(t: Timing) {
    Sum(t.prof.hist) == t.prof.instrs
  }

  lemma RecordBalanced(p: Profiler, raw: word, cycles: nat, dma: nat)
    ensures var p' := Record(p, raw, cycles, dma);
      p'.cycles == p.cycles + cycles && Sum(p'.hist) - p'.instrs == Sum(p.hist) - p.instrs
  {
    SumBump(p.hist, OpField(raw));
  }

  lemma RecordGrows(p: Profiler, raw: word)
    ensures forall cycles: nat, dma: nat :: Record(p, raw, cycles, dma).cycles == p.cycles + cycles
  {
  }

  /** Handlers leave accumulator, pcie and interrupt lines alone; only a refused DMA_LOAD writes to
      the profiler, recording itself once more at one cycle. */
  lemma HandleBooks(c: Config, m: Machine, raw: word)
    requires !Op(raw).Unassigned? && Handle(c, m, raw).Done?
    ensures var t' := Handle(c, m, raw).m.t;
      && t'.accum == m.t.accum && t'.pcie == m.t.pcie && t'.mip == m.t.mip
      && t'.prof == if Op(raw).DmaLoad? && Fabric.Full(m.t.axi) then Record(m.t.prof, raw, 1, 0) else m.t.prof
  {
    hide Record, ProfileWeight, Splice;
  }

  lemma ExecuteBooks(c: Config, m: Machine, raw: word)
    requires Execute(c, m, raw).Next?
    ensures var t' := Execute(c, m, raw).m.t;
      && Excess(t') == Excess(m.t) + (if RefusedLoad(c, m, raw) then 1 else 0)
      && t'.pcie == m.t.pcie
      && (Balanced(m.t) ==> Balanced(t'))
  {
    if !Op(raw).Unassigned? {
      HandleBooks(c, m, raw);
      var h := Handle(c, m, raw);
      var dma := if Op(raw).DmaLoad? || Op(raw).DmaStore? then Func(raw) else 0;
      RecordBalanced(m.t.prof, raw, 1, 0);
      RecordBalanced(h.m.t.prof, raw, h.cycles, dma);
      hide Handle, Record, Op;
    }
  }

  /** Ticking moves cycles from the accumulator to the pcie clock in thousands. */
  lemma {:induction false} TickBooks(t: Timing)
    ensures var t' := TickPeripherals(t);
      && t'.prof == t.prof && t'.accum == t.accum % 1000
      && t'.pcie.cur == t.pcie.cur + t.accum / 1000 * 1000
    decreases t.accum
  {
    if t.accum >= CYCLES_PER_TICK {
      TickBooks(TickOnce(t));
    }
  }

  /** Does the next step complete a DMA_LOAD that the full fabric refuses? */
  predicate StepRefused(c: Config, m: Machine) {
    var m1 := EnterInterrupt(m);
    !m.a.halt && BusServes(m1.a.mem, m1.a.pc)
      && RefusedLoad(c, Advance(BusAfterRead(m1, m1.a.pc)), BusValue(m1, m1.a.pc))
  }

  lemma IssueBooks(c: Config, m: Machine, raw: word)
    requires Issue(c, m, raw).Next?
    ensures var t' := Issue(c, m, raw).m.t;
      && Excess(t') == Excess(m.t) + (if RefusedLoad(c, Advance(m), raw) then 1 else 0)
      && t'.accum < 1000 && (t'.pcie.cur - m.t.pcie.cur) % 1000 == 0
      && (Balanced(m.t) ==> Balanced(t'))
  {
    hide Execute, TickPeripherals, RefusedLoad;
    ExecuteBooks(c, Advance(m), raw);
    TickBooks(Execute(c, Advance(m), raw).m.t);
  }

  /** What precedes the issue of a fetched word leaves the books alone. */
  lemma FetchBooks(m: Machine)
    ensures EnterInterrupt(m).t == m.t
    ensures var t' := BusAfterRead(EnterInterrupt(m), EnterInterrupt(m).a.pc).t;
      t'.prof == m.t.prof && t'.pcie == m.t.pcie && t'.accum == m.t.accum && t'.axi == m.t.axi
  {
  }

  lemma StepBooks(c: Config, m: Machine)
    requires Step(c, m).Next? && !m.a.halt
    ensures var t' := Step(c, m).m.t;
      && Excess(t') == Excess(m.t) + (if StepRefused(c, m) then 1 else 0)
      && t'.accum < 1000 && (t'.pcie.cur - m.t.pcie.cur) % 1000 == 0
      && (Balanced(m.t) ==> Balanced(t'))
  {
    hide Issue, RefusedLoad, EnterInterrupt, BusValue, BusAfterRead;
    var m1 := EnterInterrupt(m);
    FetchBooks(m);
    IssueBooks(c, BusAfterRead(m1, m1.a.pc), BusValue(m1, m1.a.pc));
  }

  /** DMA_LOADs refused by the fabric among the first n steps. */
  function RefusedLoads(c: Config, m: Machine, n: nat): nat
    decreases n
  {
    if n == 0 || AtRest(c, m) then 0
    else match Step(c, m)
      case Thrown(_, _) => 0
      case Next(m1) => (if StepRefused(c, m) then 1 else 0) + RefusedLoads(c, m1, n - 1)
  }

  /** A machine straight from the constructor, or after reset, apart from its memories. */
  predicate Fresh(t: Timing) {
    && t.accum == 0 && t.pcie.cur == 0 && t.prof.cycles == 0 && t.prof.instrs == 0 && Sum(t.prof.hist) == 0
    && t.axi.pending == []
  }

  lemma {:induction false} SumZeros(n: nat, zeros: seq<nat>)
    requires |zeros| == n && forall k :: 0 <= k < n ==> zeros[k] == 0
    ensures Sum(zeros) == 0
  {
    if n > 0 {
      SumZeros(n - 1, zeros[1..]);
    }
  }

  /** The constructor leaves fresh books, whatever is loaded into the machine afterwards. */
  lemma PowerOnFresh(scratchpad: nat, ram: nat)
    ensures Fresh(PowerOn(scratchpad, ram).t)
  {
    SumZeros(64, PowerOn(scratchpad, ram).t.prof.hist);
  }

  lemma {:induction false} RunBooks(c: Config, m: Machine, n: nat)
    requires m.t.accum < 1000 && m.t.pcie.cur % 1000 == 0 && Balanced(m.t) && !Run(c, m, n).Threw?
    ensures var t' := Run(c, m, n).m.t;
      && Excess(t') == Excess(m.t) + RefusedLoads(c, m, n)
      && t'.accum < 1000 && t'.pcie.cur % 1000 == 0 && Balanced(t')
    decreases n
  {
    hide Step, StepRefused, Balanced, Excess;
    if n > 0 && !AtRest(c, m) {
      StepBooks(c, m);
      RunBooks(c, Step(c, m).m, n - 1);
    }
  }

  /** Cycle conservation: after every completed step of a fresh machine the profiler's cycles are those
      ticked, plus the rest in the accumulator, plus one for every refused DMA_LOAD, and the opcode
      histogram adds up to the instruction count. */
  lemma CycleConservation(c: Config, m: Machine, n: nat)
    requires Fresh(m.t) && !Run(c, m, n).Threw?
    ensures var t' := Run(c, m, n).m.t;
      && t'.prof.cycles == t'.pcie.cur + t'.accum + RefusedLoads(c, m, n)
      && t'.pcie.cur % 1000 == 0 && t'.accum < 1000
      && Sum(t'.prof.hist) == t'.prof.instrs
  {
    hide Run, RefusedLoads;
    RunBooks(c, m, n);
  }

  /** In particular after the constructor, whatever program, data and registers the host puts in. */
  lemma ConstructedConserves(c: Config, scratchpad: nat, ram: nat, loaded: Arch, n: nat)
    requires !Run(c, Machine(loaded, PowerOn(scratchpad, ram).t), n).Threw?
    ensures var m := Machine(loaded, PowerOn(scratchpad, ram).t);
      var t' := Run(c, m, n).m.t;
      && t'.prof.cycles == t'.pcie.cur + t'.accum + RefusedLoads(c, m, n)
      && t'.pcie.cur % 1000 == 0 && t'.accum < 1000
      && Sum(t'.prof.hist) == t'.prof.instrs
  {
    hide Run, RefusedLoads, Fresh, PowerOn;
    PowerOnFresh(scratchpad, ram);
    CycleConservation(c, Machine(loaded, PowerOn(scratchpad, ram).t), n);
  }

  // ---------------------------------------------------------------- the timer

  /** k ticks of a thousand cycles, and how many of them fired. */
  function Ticks(t: Timer, k: nat): (Timer, nat)
    decreases k
  {
    if k == 0 then (t, 0)
    else
      var t1 := TimerTick(t, CYCLES_PER_TICK);
      var (t2, fired) := Ticks(t1, k - 1);
      (t2, fired + if t.ctrl && t.count + CYCLES_PER_TICK >= t.limit then 1 else 0)
  }

  /** A running timer whose limit is at least one tick fires floor((count + 1000 k) / limit) times in k
      ticks and is left with the remainder; its flag is up once it has fired. */
  lemma {:induction false} TimerExpiries(t: Timer, k: nat)
    requires t.ctrl && t.limit >= CYCLES_PER_TICK && t.count < t.limit
    ensures var (t', fired) := Ticks(t, k);
      && t'.ctrl && t'.limit == t.limit && t'.count < t.limit
      && fired * t.limit + t'.count == t.count + 1000 * k
      && t'.irq == (t.irq || fired > 0)
    decreases k
  {
    if k > 0 {
      var t1 := TimerTick(t, CYCLES_PER_TICK);
      TimerExpiries(t1, k - 1);
      var (t2, more) := Ticks(t1, k - 1);
      assert (more + 1) * t.limit == more * t.limit + t.limit;
    }
  }

  lemma TimerExpiryCount(t: Timer, k: nat)
    requires t.ctrl && t.limit >= CYCLES_PER_TICK && t.count < t.limit
    ensures var (t', fired) := Ticks(t, k);
      fired == (t.count + 1000 * k) / t.limit && t'.count == (t.count + 1000 * k) % t.limit
  {
    TimerExpiries(t, k);
    var (t', fired) := Ticks(t, k);
    Quotient(t.count + 1000 * k, t.limit, fired, t'.count);
  }
}
