/** The execution core as a transition function on values: registers, memories, devices, profiler,
    fabric and the handlers of the eighteen opcodes, with the state each exception leaves behind. */
module Machine {
  import opened Words
  import opened Isa
  import opened Tensor
  import opened Tiles
  import Fabric

  const NUM_GPR: nat := 16
  const NUM_OPCODES: nat := 64
  const VR_BYTE_SIZE: nat := 64
  const CYCLES_PER_TICK: nat := 1000
  const TEXT_SIZE: nat := 0x80_0000
  const MMIO_BASE: nat := 0x3F0_0000
  const WINDOW: nat := 0x1000
  const TIMER_LINE: nat := 7

  type Gprs = s: seq<word> | |s| == 16 witness seq(16, _ => 0)
  /** AXI4 with 64-byte beats, latency 2, eight outstanding transactions and sixteen-beat bursts. */
  type Axi = f: Fabric.State | f.cfg == Fabric.Config(64, 2, 8, 16)
    witness Fabric.Empty(Fabric.Config(64, 2, 8, 16))

  type PerOpcode = s: seq<nat> | |s| == 64 witness seq(64, _ => 0)

  // ---------------------------------------------------------------- state

  datatype Flags = Flags(zero: bool, negative: bool, overflow: bool)

  /** The control registers a step can touch; mstatus by its fields, CSR_MIE as the set of its bits. */
  datatype Csr = Csr(
    mie: bool, mpie: bool, mpp: nat, enabled: set<nat>,
    mtvec: nat, mepc: nat, mcause: nat, mtval: nat, priv: nat, traps: nat)

  /** What a program can observe. `uart` is every byte transmitted so far, printed or still buffered. */
  datatype Arch = Arch(
    gpr: Gprs, vr: VecFile, pc: word, halt: bool, flags: Flags,
    mem: seq<byte>, ram: seq<byte>, csr: Csr, uart: seq<byte>)

  datatype Timer = Timer(count: nat, limit: nat, ctrl: bool, irq: bool)

  datatype Profiler = Profiler(instrs: nat, cycles: nat, dmaBytes: nat, dmaCycles: nat, hist: PerOpcode)

  /** What only the clock drives. `pcie` stands for the fabrics the core ticks but never issues to. */
  datatype Timing = Timing(
    timer: Timer, axi: Axi, pcie: Fabric.State, prof: Profiler, accum: nat, mip: set<nat>)

  datatype Machine = Machine(a: Arch, t: Timing)

  /** Host-side settings: profile overrides, acceleration, debugger and the FP32 unit. */
  datatype Config = Config(overrides: PerOpcode, accel: bool, breakpoints: set<word>, verbose: bool, fpu: Fpu)

  /** The exceptions, and Undefined for the inputs on which the C++ indexes outside an array. */
  datatype Fault =
    | AccessOutOfBounds | DmaScratchpadBounds | DmaRamBounds | BadTile | UnknownOpcode(code: nat)
    | ProgramTooLarge | Undefined

  datatype Handled = Done(m: Machine, cycles: nat) | Failed(m: Machine, fault: Fault)

  datatype Outcome = Next(m: Machine) | Thrown(m: Machine, fault: Fault)

  const CSR_RESET := Csr(false, false, 0, {}, 0, 0, 0, 0, 3, 0)

  /** A machine straight from the constructor: everything zero, the timer stopped at limit 10000. */
  function PowerOn(scratchpad: nat, ram: nat): Machine {
    Machine(
      Arch(seq(16, _ => 0), seq(128, _ => 0), 0, false, Flags(false, false, false),
           seq(scratchpad, _ => 0), seq(ram, _ => 0), CSR_RESET, []),
      Timing(Timer(0, 10000, false, false), Fabric.Empty(Fabric.Config(64, 2, 8, 16)),
             Fabric.Empty(Fabric.Config(64, 4, 4, 8)), Profiler(0, 0, 0, 0, seq(64, _ => 0)), 0, {}))
  }

  // ---------------------------------------------------------------- registers

  function ReadGpr(gpr: Gprs, idx: nat): word
    requires idx < NUM_GPR
  {
    if idx == 0 then 0 else gpr[idx]
  }

  function WriteGpr(gpr: Gprs, idx: nat, v: word): Gprs
    requires idx < NUM_GPR
  {
    (if idx == 0 then gpr else gpr[idx := v])[0 := 0]
  }

  function FlagsOf(result: word): Flags {
    Flags(result == 0, result >= 0x8000_0000, false)
  }

  /** The int32_t view of a word. */
  function Signed32(x: word): int {
    if x < 0x8000_0000 then x else x - 0x1_0000_0000
  }

  /** What ADD and SUB put into the overflow flag, before they set the other two and clear this one. */
  predicate SignTest(op: Opcode, x: word, y: word) {
    var result := if op.Add? then Wrap(x + y) else Wrap(x - y);
    var xNeg, yNeg, resultNeg := Signed32(x) < 0, Signed32(y) < 0, Signed32(result) < 0;
    (if op.Add? then xNeg == yNeg else xNeg != yNeg) && xNeg != resultNeg
  }

  // ---------------------------------------------------------------- devices and bus

  function TimerTick(t: Timer, cycles: nat): Timer {
    if !t.ctrl then t
    else if t.count + cycles >= t.limit then t.(count := t.count + cycles - t.limit, irq := true)
    else t.(count := t.count + cycles)
  }

  function TimerValue(t: Timer, offset: nat): word {
    match offset
    case 0x0 => Wrap(t.count)
    case 0x4 => Wrap(t.limit)
    case 0x8 => if t.ctrl then 1 else 0
    case 0xC => if t.irq then 1 else 0
    case _ => 0
  }

  /** Reading the interrupt register clears it. */
  function TimerAfterRead(t: Timer, offset: nat): Timer {
    if offset == 0xC then t.(irq := false) else t
  }

  function TimerWrite(t: Timer, offset: nat, v: word): Timer {
    match offset
    case 0x0 => t.(count := v)
    case 0x4 => t.(limit := v)
    case 0x8 => t.(ctrl := v != 0)
    case 0xC => t.(irq := false)
    case _ => t
  }

  function UartValue(offset: nat): word {
    if offset == 0x8 then 1 else 0
  }

  function UartWrite(uart: seq<byte>, offset: nat, v: word): seq<byte> {
    if offset == 0x0 then uart + [v % 0x100] else uart
  }

  predicate InTimer(addr: nat) {
    MMIO_BASE <= addr < MMIO_BASE + WINDOW
  }

  predicate InUart(addr: nat) {
    MMIO_BASE + WINDOW <= addr < MMIO_BASE + 2 * WINDOW
  }

  /** Is `addr` served by a device, or by four bytes inside the scratchpad? */
  predicate BusServes(mem: seq<byte>, addr: nat) {
    InTimer(addr) || InUart(addr) || addr + 4 <= |mem|
  }

  function BusValue(m: Machine, addr: nat): word
    requires BusServes(m.a.mem, addr)
  {
    if InTimer(addr) then TimerValue(m.t.timer, addr - MMIO_BASE)
    else if InUart(addr) then UartValue(addr - MMIO_BASE - WINDOW)
    else Read32(m.a.mem, addr)
  }

  function BusAfterRead(m: Machine, addr: nat): Machine {
    if InTimer(addr) then m.(t := m.t.(timer := TimerAfterRead(m.t.timer, addr - MMIO_BASE))) else m
  }

  function BusWrite(m: Machine, addr: nat, v: word): Machine
    requires BusServes(m.a.mem, addr)
  {
    if InTimer(addr) then m.(t := m.t.(timer := TimerWrite(m.t.timer, addr - MMIO_BASE, v)))
    else if InUart(addr) then m.(a := m.a.(uart := UartWrite(m.a.uart, addr - MMIO_BASE - WINDOW, v)))
    else m.(a := m.a.(mem := Write32(m.a.mem, addr, v)))
  }

  // ---------------------------------------------------------------- profiler and fabric

  function Record(p: Profiler, raw: word, cycles: nat, dmaBytes: nat): Profiler {
    var k := OpField(raw);
    Profiler(p.instrs + 1, p.cycles + cycles, p.dmaBytes + dmaBytes,
             if dmaBytes > 0 then p.dmaCycles + cycles else p.dmaCycles,
             p.hist[k := p.hist[k] + 1])
  }

  /** Offer a transaction stamped with the profiler's cycle count. */
  function OfferAxi(m: Machine, addr: word, bytes: word, isWrite: bool): Machine {
    var now := m.t.prof.cycles;
    m.(t := m.t.(axi := Fabric.Issue(m.t.axi, Fabric.Transaction(addr, bytes, isWrite, now, 0), now)))
  }

  function ProfileWeight(c: Config, raw: word, func: nat): nat {
    var ov := c.overrides[OpField(raw)];
    if ov != 0 then ov else CycleWeight(Op(raw), func)
  }

  // ---------------------------------------------------------------- handlers

  function SetGpr(m: Machine, idx: nat, v: word): Machine
    requires idx < NUM_GPR
  {
    m.(a := m.a.(gpr := WriteGpr(m.a.gpr, idx, v)))
  }

  /** ADD, SUB and MUL: the result goes to rd and sets the flags. */
  function ExecAlu(m: Machine, raw: word): Handled {
    if Ra(raw) >= NUM_GPR || Rb(raw) >= NUM_GPR || Rd(raw) >= NUM_GPR then Failed(m, Undefined)
    else
      var x, y := ReadGpr(m.a.gpr, Ra(raw)), ReadGpr(m.a.gpr, Rb(raw));
      var op := Op(raw);
      var result := if op.Add? then Wrap(x + y) else if op.Sub? then Wrap(x - y) else Wrap(x * y);
      Done(m.(a := m.a.(gpr := WriteGpr(m.a.gpr, Rd(raw), result), flags := FlagsOf(result))),
           CycleWeight(op, 0))
  }

  function ExecJump(m: Machine, raw: word): Handled {
    Done(m.(a := m.a.(pc := Target(raw))), CycleWeight(Jmp, 0))
  }

  /** BEQ and BNE: the offset counts bytes from the word after the branch. */
  function ExecBranch(m: Machine, raw: word): Handled {
    if Rd(raw) >= NUM_GPR || Ra(raw) >= NUM_GPR then Failed(m, Undefined)
    else
      var equal := ReadGpr(m.a.gpr, Rd(raw)) == ReadGpr(m.a.gpr, Ra(raw));
      if equal == Op(raw).Beq? then
        Done(m.(a := m.a.(pc := Wrap(m.a.pc + Simm16(raw)))), CycleWeight(Op(raw), 0) + 1)
      else Done(m, CycleWeight(Op(raw), 0))
  }

  function Effective(m: Machine, raw: word): word
    requires Ra(raw) < NUM_GPR
  {
    Wrap(ReadGpr(m.a.gpr, Ra(raw)) + Simm16(raw))
  }

  function ExecLoad(m: Machine, raw: word): Handled {
    if Ra(raw) >= NUM_GPR then Failed(m, Undefined)
    else
      var addr := Effective(m, raw);
      var m1 := OfferAxi(m, addr, 4, false);
      if !BusServes(m1.a.mem, addr) then Failed(m1, AccessOutOfBounds)
      else if Rd(raw) >= NUM_GPR then Failed(BusAfterRead(m1, addr), Undefined)
      else Done(SetGpr(BusAfterRead(m1, addr), Rd(raw), BusValue(m1, addr)), CycleWeight(Load, 0))
  }

  function ExecStore(m: Machine, raw: word): Handled {
    if Ra(raw) >= NUM_GPR || Rd(raw) >= NUM_GPR then Failed(m, Undefined)
    else
      var addr := Effective(m, raw);
      var m1 := OfferAxi(m, addr, 4, true);
      if !BusServes(m1.a.mem, addr) then Failed(m1, AccessOutOfBounds)
      else Done(BusWrite(m1, addr, ReadGpr(m.a.gpr, Rd(raw))), CycleWeight(Store, 0))
  }

  function ExecMov(m: Machine, raw: word): Handled {
    if Ra(raw) >= NUM_GPR || Rd(raw) >= NUM_GPR then Failed(m, Undefined)
    else Done(SetGpr(m, Rd(raw), ReadGpr(m.a.gpr, Ra(raw))), CycleWeight(Mov, 0))
  }

  function ExecMovi(m: Machine, raw: word): Handled {
    if Rd(raw) >= NUM_GPR then Failed(m, Undefined)
    else Done(SetGpr(m, Rd(raw), Imm16(raw)), CycleWeight(Movi, 0))
  }

  /** The sixteen words stored from `at` on, as the lanes of register v. */
  function LanesFrom(vr: VecFile, v: nat, mem: seq<byte>, at: nat): VecFile
    requires v < NUM_VR && at + VR_BYTE_SIZE <= |mem|
  {
    vr[..Lane(v, 0)] + seq(VEC_WIDTH, i requires 0 <= i < VEC_WIDTH => Read32(mem, at + 4 * i))
      + vr[Lane(v + 1, 0)..]
  }

  function LaneBytes(vr: VecFile, v: nat): (r: seq<byte>)
    requires v < NUM_VR
    ensures |r| == VR_BYTE_SIZE
  {
    seq(VR_BYTE_SIZE, k requires 0 <= k < VR_BYTE_SIZE => Bytes4(vr[Lane(v, k / 4)])[k % 4])
  }

  function ExecLoadVr(m: Machine, raw: word): Handled {
    if Ra(raw) >= NUM_GPR || Rd(raw) >= NUM_VR then Failed(m, Undefined)
    else
      var addr := Effective(m, raw);
      if addr + VR_BYTE_SIZE > |m.a.mem| then Failed(m, AccessOutOfBounds)
      else Done(m.(a := m.a.(vr := LanesFrom(m.a.vr, Rd(raw), m.a.mem, addr))), CycleWeight(LoadVr, 0))
  }

  function ExecStoreVr(m: Machine, raw: word): Handled {
    if Ra(raw) >= NUM_GPR || Rd(raw) >= NUM_VR then Failed(m, Undefined)
    else
      var addr := Effective(m, raw);
      if addr + VR_BYTE_SIZE > |m.a.mem| then Failed(m, AccessOutOfBounds)
      else Done(m.(a := m.a.(mem := Splice(m.a.mem, addr, LaneBytes(m.a.vr, Rd(raw))))), CycleWeight(StoreVr, 0))
  }

  predicate VecOperands(raw: word) {
    Rd(raw) < NUM_VR && Ra(raw) < NUM_VR && Rb(raw) < NUM_VR
  }

  function ExecVecAdd(c: Config, m: Machine, raw: word): Handled {
    if !VecOperands(raw) then Failed(m, Undefined)
    else Done(m.(a := m.a.(vr := VecAdded(c.fpu, m.a.vr, Rd(raw), Ra(raw), Rb(raw)))), ProfileWeight(c, raw, 0))
  }

  function TileSize(raw: word): nat {
    Func(raw) % 16
  }

  function ExecMatmul(c: Config, m: Machine, raw: word): Handled {
    var n := TileSize(raw);
    if n == 0 || n > TILE_SIZE then Failed(m, BadTile)
    else if !VecOperands(raw) then Failed(m, Undefined)
    else Done(m.(a := m.a.(vr := MatmulTiled(c.fpu, m.a.vr, Rd(raw), Ra(raw), Rb(raw), n))), ProfileWeight(c, raw, n))
  }

  /** The bounds checks add in 32 bits; a sum that wraps passes them and the copy is then undefined. */
  function ExecDmaLoad(c: Config, m: Machine, raw: word): Handled {
    if Rd(raw) >= NUM_GPR || Ra(raw) >= NUM_GPR then Failed(m, Undefined)
    else
      var dest, src, bytes := ReadGpr(m.a.gpr, Rd(raw)), ReadGpr(m.a.gpr, Ra(raw)), Func(raw);
      if Wrap(dest + bytes) > |m.a.mem| then Failed(m, DmaScratchpadBounds)
      else if Wrap(src + bytes) > |m.a.ram| then Failed(m, DmaRamBounds)
      else
        var m1 := OfferAxi(m, dest, bytes, false);
        var m2 := if Fabric.Full(m.t.axi) then m1.(t := m1.t.(prof := Record(m1.t.prof, raw, 1, 0))) else m1;
        if dest + bytes > |m.a.mem| || src + bytes > |m.a.ram| then Failed(m2, Undefined)
        else Done(m2.(a := m2.a.(mem := Splice(m2.a.mem, dest, m2.a.ram[src..src + bytes]))),
                  ProfileWeight(c, raw, bytes))
  }

  function ExecDmaStore(c: Config, m: Machine, raw: word): Handled {
    if Rd(raw) >= NUM_GPR || Ra(raw) >= NUM_GPR then Failed(m, Undefined)
    else
      var dest, src, bytes := ReadGpr(m.a.gpr, Rd(raw)), ReadGpr(m.a.gpr, Ra(raw)), Func(raw);
      if Wrap(dest + bytes) > |m.a.ram| then Failed(m, DmaRamBounds)
      else if Wrap(src + bytes) > |m.a.mem| then Failed(m, DmaScratchpadBounds)
      else
        var m1 := OfferAxi(m, src, bytes, true);
        if dest + bytes > |m.a.ram| || src + bytes > |m.a.mem| then Failed(m1, Undefined)
        else Done(m1.(a := m1.a.(ram := Splice(m1.a.ram, dest, m1.a.mem[src..src + bytes]))),
                  ProfileWeight(c, raw, bytes))
  }

  function Handle(c: Config, m: Machine, raw: word): Handled
    requires !Op(raw).Unassigned?
  {
    match Op(raw)
    case Nop => Done(m, CycleWeight(Nop, 0))
    case Halt => Done(m.(a := m.a.(halt := true)), 0)
    case Jmp => ExecJump(m, raw)
    case Beq => ExecBranch(m, raw)
    case Bne => ExecBranch(m, raw)
    case Add => ExecAlu(m, raw)
    case Sub => ExecAlu(m, raw)
    case Mul => ExecAlu(m, raw)
    case Load => ExecLoad(m, raw)
    case Store => ExecStore(m, raw)
    case Mov => ExecMov(m, raw)
    case Movi => ExecMovi(m, raw)
    case LoadVr => ExecLoadVr(m, raw)
    case StoreVr => ExecStoreVr(m, raw)
    case VecAdd => ExecVecAdd(c, m, raw)
    case MatmulTile => ExecMatmul(c, m, raw)
    case DmaLoad => ExecDmaLoad(c, m, raw)
    case DmaStore => ExecDmaStore(c, m, raw)
  }

  // ---------------------------------------------------------------- traps

  /** Trap entry: the old mie is saved, mie is cleared and the hart enters machine mode. */
  function TakeTrap(csr: Csr, cause: nat, tval: nat, pc: nat): Csr {
    csr.(mepc := pc, mcause := cause, mtval := tval,
         mpie := csr.mie, mie := false, mpp := csr.priv, priv := 3, traps := csr.traps + 1)
  }

  function VectorBase(csr: Csr): word {
    Wrap(csr.mtvec - csr.mtvec % 4)
  }

  datatype Interrupt = NoInterrupt | Interrupt(cause: nat)

  /** Lines are considered only with mie set; external before timer before software. */
  function PendingInterrupt(m: Machine): Interrupt {
    var live := m.t.mip * m.a.csr.enabled;
    if !m.a.csr.mie then NoInterrupt
    else if 11 in live then Interrupt(0x800B)
    else if 7 in live then Interrupt(0x8007)
    else if 3 in live then Interrupt(0x8003)
    else if 9 in live then Interrupt(0x8009)
    else if 5 in live then Interrupt(0x8005)
    else NoInterrupt
  }

  /** Asynchronous traps record pc 0, as the interrupt controller builds them. */
  function EnterInterrupt(m: Machine): Machine {
    match PendingInterrupt(m)
    case NoInterrupt => m
    case Interrupt(cause) =>
      var csr := TakeTrap(m.a.csr, cause + 0x8000_0000_0000_0000, 0, 0);
      var base := VectorBase(csr);
      m.(a := m.a.(csr := csr, pc := if csr.mtvec % 2 == 1 then Wrap(base + cause % 0x100 * 4) else base))
  }

  // ---------------------------------------------------------------- one step

  function Execute(c: Config, m: Machine, raw: word): Outcome {
    if Op(raw).Unassigned? then
      if m.a.csr.mtvec == 0 then Thrown(m, UnknownOpcode(OpField(raw)))
      else
        var csr := TakeTrap(m.a.csr, 2, raw, Wrap(m.a.pc - 4));
        Next(m.(a := m.a.(csr := csr, pc := VectorBase(csr))))
    else
      match Handle(c, m, raw)
      case Failed(m1, fault) => Thrown(m1, fault)
      case Done(m1, cycles) =>
        var dma := if Op(raw).DmaLoad? || Op(raw).DmaStore? then Func(raw) else 0;
        Next(m1.(t := m1.t.(prof := Record(m1.t.prof, raw, cycles, dma), accum := m1.t.accum + cycles)))
  }

  function TickOnce(t: Timing): Timing
    requires t.accum >= CYCLES_PER_TICK
  {
    var timer := TimerTick(t.timer, CYCLES_PER_TICK);
    t.(timer := timer, mip := if timer.irq then t.mip + {TIMER_LINE} else t.mip - {TIMER_LINE},
       axi := Fabric.Tick(t.axi, CYCLES_PER_TICK), pcie := Fabric.Tick(t.pcie, CYCLES_PER_TICK),
       accum := t.accum - CYCLES_PER_TICK)
  }

  function TickPeripherals(t: Timing): Timing
    decreases t.accum
  {
    if t.accum < CYCLES_PER_TICK then t else TickPeripherals(TickOnce(t))
  }

  function Ticked(m: Machine): Machine {
    m.(t := TickPeripherals(m.t))
  }

  function Advance(m: Machine): Machine {
    m.(a := m.a.(pc := Wrap(m.a.pc + 4)))
  }

  /** Execute a word already fetched: pc moves past it, the handler runs, the peripherals catch up. */
  function Issue(c: Config, m: Machine, raw: word): Outcome {
    match Execute(c, Advance(m), raw)
    case Thrown(m1, fault) => Thrown(m1, fault)
    case Next(m1) => Next(Ticked(m1))
  }

  function Step(c: Config, m: Machine): Outcome {
    if m.a.halt then Next(m)
    else
      var m1 := EnterInterrupt(m);
      if !BusServes(m1.a.mem, m1.a.pc) then Thrown(m1, AccessOutOfBounds)
      else Issue(c, BusAfterRead(m1, m1.a.pc), BusValue(m1, m1.a.pc))
  }

  // ---------------------------------------------------------------- runs

  datatype Exit = Running(m: Machine) | Stopped(m: Machine) | Threw(m: Machine, fault: Fault)

  /** The run loops stop on HALT or in front of a breakpoint. */
  predicate AtRest(c: Config, m: Machine) {
    m.a.halt || m.a.pc in c.breakpoints
  }

  /** The interpreter loop, cut off after at most n steps. */
  function Run(c: Config, m: Machine, n: nat): Exit
    decreases n
  {
    if AtRest(c, m) then Stopped(m)
    else if n == 0 then Running(m)
    else match Step(c, m)
      case Thrown(m1, fault) => Threw(m1, fault)
      case Next(m1) => Run(c, m1, n - 1)
  }
}
