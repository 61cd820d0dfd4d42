/** The emulator object: the same core, updating its registers, memories and devices in place, each
    method tied to the transition function on values that the theorems are about. */
module Emulator {
  import opened Words
  import opened Isa
  import opened Tensor
  import opened Tiles
  import opened Machine
  import opened Blocks
  import Fabric

  /** What a call that may throw reports. */
  datatype Status = Fine | Raised(fault: Fault)

  function HandledAs(m: Machine, cycles: nat, status: Status): Handled {
    match status
    case Fine => Done(m, cycles)
    case Raised(fault) => Failed(m, fault)
  }

  function OutcomeAs(m: Machine, status: Status): Outcome {
    match status
    case Fine => Next(m)
    case Raised(fault) => Thrown(m, fault)
  }

  /** memcpy into a byte store. */
  method CopyInto(dst: array<byte>, at: nat, src: seq<byte>)
    requires at + |src| <= dst.Length
    modifies dst
    ensures dst[..] == Splice(old(dst[..]), at, src)
  {
    for k := 0 to |src|
      invariant forall j :: 0 <= j < dst.Length ==> dst[j] == if at <= j < at + k then src[j - at] else old(dst[j])
    {
      dst[at + k] := src[k];
    }
    assert dst[..] == Splice(old(dst[..]), at, src);
  }

  /** A byte store of a vector sized at construction. */
  method ZeroedBytes(n: nat) returns (a: array<byte>)
    ensures fresh(a) && a.Length == n && a[..] == seq(n, _ => 0)
  {
    a := new byte[n](_ => 0);
    assert a[..] == seq(n, _ => 0);
  }

  method ZeroedLanes() returns (a: array<word>)
    ensures fresh(a) && a.Length == 128 && a[..] == seq(128, _ => 0)
  {
    a := new word[128](_ => 0);
    assert a[..] == seq(128, _ => 0);
  }

  /** memcpy of sixteen little-endian words into the lanes of a vector register. */
  method ReadLanes(vr: array<word>, v: nat, mem: seq<byte>, at: nat)
    requires vr.Length == 128 && v < NUM_VR && at + VR_BYTE_SIZE <= |mem|
    modifies vr
    ensures vr[..] == LanesFrom(old(vr[..]), v, mem, at)
  {
    hide Read32;
    for i := 0 to VEC_WIDTH
      invariant forall k :: 0 <= k < 128 ==> vr[k] == if Lane(v, 0) <= k < Lane(v, i)
                                                      then LanesFrom(old(vr[..]), v, mem, at)[k] else old(vr[k])
    {
      vr[Lane(v, i)] := Read32(mem, at + 4 * i);
    }
    assert vr[..] == LanesFrom(old(vr[..]), v, mem, at);
  }

  // ---------------------------------------------------------------- parts

  class TimerDevice {
    var count: nat
    var limit: nat
    var ctrl: bool
    var irq: bool

    function Value(): Timer
      reads this
    {
      Timer(count, limit, ctrl, irq)
    }

    constructor ()
      ensures Value() == Timer(0, 10000, false, false)
    {
      count, limit, ctrl, irq := 0, 10000, false, false;
    }

    method Tick(cycles: nat)
      modifies this
      ensures Value() == TimerTick(old(Value()), cycles)
    {
      if ctrl {
        count := count + cycles;
        if count >= limit {
          count := count - limit;
          irq := true;
        }
      }
    }

    method ReadReg(offset: nat) returns (v: word)
      modifies this
      ensures v == TimerValue(old(Value()), offset) && Value() == TimerAfterRead(old(Value()), offset)
    {
      match offset {
        case 0x0 => v := Wrap(count);
        case 0x4 => v := Wrap(limit);
        case 0x8 => v := if ctrl then 1 else 0;
        case 0xC =>
          v := if irq then 1 else 0;
          irq := false;
        case _ => v := 0;
      }
    }

    method WriteReg(offset: nat, v: word)
      modifies this
      ensures Value() == TimerWrite(old(Value()), offset, v)
    {
      match offset {
        case 0x0 => count := v;
        case 0x4 => limit := v;
        case 0x8 => ctrl := v != 0;
        case 0xC => irq := false;
        case _ =>
      }
    }
  }

  class ProfilerUnit {
    var instrs: nat
    var cycles: nat
    var dmaBytes: nat
    var dmaCycles: nat
    var hist: PerOpcode

    function Value(): Profiler
      reads this
    {
      Profiler(instrs, cycles, dmaBytes, dmaCycles, hist)
    }

    constructor ()
      ensures Value() == Profiler(0, 0, 0, 0, seq(64, _ => 0))
    {
      instrs, cycles, dmaBytes, dmaCycles := 0, 0, 0, 0;
      hist := seq(64, _ => 0);
    }

    method Count(raw: word, cyc: nat, bytes: nat)
      modifies this
      ensures Value() == Record(old(Value()), raw, cyc, bytes)
    {
      instrs := instrs + 1;
      cycles := cycles + cyc;
      hist := hist[OpField(raw) := hist[OpField(raw)] + 1];
      if bytes > 0 {
        dmaBytes := dmaBytes + bytes;
        dmaCycles := dmaCycles + cyc;
      }
    }
  }

  class BlockCache {
    var blocks: map<word, Block>
    var hits: nat
    var misses: nat

    function Value(): Cache
      reads this
    {
      Cache(blocks, hits, misses)
    }

    constructor ()
      ensures Value() == EMPTY
    {
      blocks, hits, misses := map[], 0, 0;
    }

    method Clear()
      modifies this
      ensures Value() == EMPTY
    {
      blocks, hits, misses := map[], 0, 0;
    }

    /** Look a block up, or decode one until control flow, a line boundary or 32 words. */
    method Lookup(mem: array<byte>, at: word) returns (found: Lookup)
      modifies this
      ensures (Value(), found) == Fetch(old(Value()), mem[..], at)
    {
      hide Decode, OpcodeOf;
      if at in blocks {
        hits := hits + 1;
        return Found(blocks[at]);
      }
      misses := misses + 1;
      var decoded := DecodeLoop(mem[..], at);
      match decoded {
        case OutOfRange =>
          return ReadFault;
        case Ops(ops, end) =>
          var last := if ops == [] then Nop else Op(ops[|ops| - 1]);
          var b := Block(at, end, ops, last.Jmp? || last.Beq? || last.Bne?, last.Halt?);
          blocks := blocks[at := b];
          return Found(b);
      }
    }

    method DecodeLoop(mem: seq<byte>, at: word) returns (decoded: Decoded)
      ensures decoded == Decode(mem, at, MAX_LEN)
    {
      hide Read32, EndsBlock, Wrap, Prefixed, Decode;
      var cur: word, ops: seq<word>, left: nat := at, [], MAX_LEN;
      PrefixedNone(mem, at, [], MAX_LEN);
      while left > 0
        invariant Prefixed(ops, Decode(mem, cur, left)) == Decode(mem, at, MAX_LEN)
        decreases left
      {
        PrefixedStep(mem, cur, ops, left);
        if cur + 4 > |mem| {
          return OutOfRange;
        }
        var raw := Read32(mem, cur);
        ops := ops + [raw];
        cur := Wrap(cur + 4);
        if EndsBlock(raw) || cur % 64 == 0 {
          return Ops(ops, cur);
        }
        left := left - 1;
      }
      PrefixedNone(mem, cur, ops, left);
      return Ops(ops, cur);
    }
  }

  function Prefixed(ops: seq<word>, d: Decoded): Decoded {
    match d
    case OutOfRange => OutOfRange
    case Ops(rest, end) => Ops(ops + rest, end)
  }

  lemma PrefixedNone(mem: seq<byte>, cur: word, ops: seq<word>, left: nat)
    ensures Prefixed([], Decode(mem, cur, left)) == Decode(mem, cur, left)
    ensures left == 0 ==> Prefixed(ops, Decode(mem, cur, left)) == Ops(ops, cur)
  {
    hide Read32, EndsBlock, Wrap;
    match Decode(mem, cur, left)
    case OutOfRange =>
    case Ops(rest, end) => assert [] + rest == rest;
    assert ops + [] == ops;
  }

  /** One iteration of the decode loop takes one word over from what is left to decode. */
  lemma PrefixedStep(mem: seq<byte>, cur: word, ops: seq<word>, left: nat)
    requires left > 0
    ensures cur + 4 > |mem| ==> Prefixed(ops, Decode(mem, cur, left)) == OutOfRange
    ensures cur + 4 <= |mem| ==> var raw, next := Read32(mem, cur), Wrap(cur + 4);
      Prefixed(ops, Decode(mem, cur, left)) ==
        if EndsBlock(raw) || next % 64 == 0 then Ops(ops + [raw], next)
        else Prefixed(ops + [raw], Decode(mem, next, left - 1))
  {
    hide Read32, EndsBlock, Wrap;
    if cur + 4 <= |mem| {
      var raw, rest := Read32(mem, cur), Decode(mem, Wrap(cur + 4), left - 1);
      if rest.Ops? {
        assert ops + ([raw] + rest.ops) == (ops + [raw]) + rest.ops;
      }
    }
  }

  // ---------------------------------------------------------------- the emulator

  class Emulator {
    var cfg: Config
    var gpr: Gprs
    var pc: word
    var halt: bool
    var flags: Flags
    var csr: Csr
    var uart: seq<byte>
    var accum: nat
    var mip: set<nat>
    const vr: array<word>
    const scratchpad: array<byte>
    const mainRam: array<byte>
    const timer: TimerDevice
    const prof: ProfilerUnit
    const axi: Fabric.Interconnect
    const pcie: Fabric.Interconnect
    const blockCache: BlockCache

    ghost predicate Valid()
      reads this, axi
    {
      && vr.Length == 128 && scratchpad != mainRam && axi != pcie
      && axi.cfg == Fabric.Config(64, 2, 8, 16)
    }

    ghost function Parts(): set<object> {
      {this, vr, scratchpad, mainRam, timer, prof, axi, pcie}
    }

    function Registers(): Arch
      requires vr.Length == 128
      reads this, vr, scratchpad, mainRam
    {
      Arch(gpr, vr[..], pc, halt, flags, scratchpad[..], mainRam[..], csr, uart)
    }

    ghost function State(): Machine
      requires Valid()
      reads this, vr, scratchpad, mainRam, timer, prof, axi, pcie
    {
      Machine(Registers(), Timing(timer.Value(), axi.Value(), pcie.Value(), prof.Value(), accum, mip))
    }

    // ------------------------------------------------------------ bus

    method BusRead32(addr: word) returns (v: word, status: Status)
      requires Valid()
      modifies timer
      ensures Valid()
      ensures status == (if BusServes(scratchpad[..], addr) then Fine else Raised(AccessOutOfBounds))
      ensures status.Fine? ==> v == BusValue(old(State()), addr) && State() == BusAfterRead(old(State()), addr)
      ensures status.Raised? ==> State() == old(State())
    {
      if InTimer(addr) {
        v := timer.ReadReg(addr - MMIO_BASE);
      } else if InUart(addr) {
        v := UartValue(addr - MMIO_BASE - WINDOW);
      } else if addr + 4 > scratchpad.Length {
        return 0, Raised(AccessOutOfBounds);
      } else {
        v := Read32(scratchpad[..], addr);
      }
      status := Fine;
    }

    method BusWrite32(addr: word, v: word) returns (status: Status)
      requires Valid()
      modifies timer, this`uart, scratchpad
      ensures Valid()
      ensures status == (if BusServes(old(scratchpad[..]), addr) then Fine else Raised(AccessOutOfBounds))
      ensures State() == if status.Fine? then BusWrite(old(State()), addr, v) else old(State())
    {
      if InTimer(addr) {
        timer.WriteReg(addr - MMIO_BASE, v);
      } else if InUart(addr) {
        uart := UartWrite(uart, addr - MMIO_BASE - WINDOW, v);
      } else if addr + 4 > scratchpad.Length {
        return Raised(AccessOutOfBounds);
      } else {
        CopyInto(scratchpad, addr, Bytes4(v));
      }
      status := Fine;
    }

    // ------------------------------------------------------------ scalar handlers

    method UpdateFlags(result: word)
      modifies this`flags
      ensures flags == FlagsOf(result)
    {
      flags := Flags(result == 0, result / 0x8000_0000 == 1, false);
    }

    method OpAdd(raw: word) returns (cycles: nat, status: Status)
      requires Valid() && Op(raw).Add?
      modifies this`gpr, this`flags
      ensures Valid() && HandledAs(State(), cycles, status) == ExecAlu(old(State()), raw)
    {
      hide Rd, Ra, Rb, Op, WriteGpr, ReadGpr;
      if Ra(raw) >= NUM_GPR || Rb(raw) >= NUM_GPR || Rd(raw) >= NUM_GPR {
        return 0, Raised(Undefined);
      }
      var a: int, b: int := ReadGpr(gpr, Ra(raw)), ReadGpr(gpr, Rb(raw));
      var result := Wrap(a + b);
      gpr := WriteGpr(gpr, Rd(raw), result);
      var aNeg, bNeg, rNeg := a >= 0x8000_0000, b >= 0x8000_0000, result >= 0x8000_0000;
      flags := flags.(overflow := aNeg == bNeg && aNeg != rNeg);
      assert flags.overflow == SignTest(Add, a, b);
      UpdateFlags(result);
      return CycleWeight(Add, 0), Fine;
    }

    method OpSub(raw: word) returns (cycles: nat, status: Status)
      requires Valid() && Op(raw).Sub?
      modifies this`gpr, this`flags
      ensures Valid() && HandledAs(State(), cycles, status) == ExecAlu(old(State()), raw)
    {
      hide Rd, Ra, Rb, Op, WriteGpr, ReadGpr;
      if Ra(raw) >= NUM_GPR || Rb(raw) >= NUM_GPR || Rd(raw) >= NUM_GPR {
        return 0, Raised(Undefined);
      }
      var a: int, b: int := ReadGpr(gpr, Ra(raw)), ReadGpr(gpr, Rb(raw));
      var result := Wrap(a - b);
      gpr := WriteGpr(gpr, Rd(raw), result);
      var aNeg, bNeg, rNeg := a >= 0x8000_0000, b >= 0x8000_0000, result >= 0x8000_0000;
      flags := flags.(overflow := aNeg != bNeg && aNeg != rNeg);
      assert flags.overflow == SignTest(Sub, a, b);
      UpdateFlags(result);
      return CycleWeight(Sub, 0), Fine;
    }

    method OpMul(raw: word) returns (cycles: nat, status: Status)
      requires Valid() && Op(raw).Mul?
      modifies this`gpr, this`flags
      ensures Valid() && HandledAs(State(), cycles, status) == ExecAlu(old(State()), raw)
    {
      if Ra(raw) >= NUM_GPR || Rb(raw) >= NUM_GPR || Rd(raw) >= NUM_GPR {
        return 0, Raised(Undefined);
      }
      var result := Wrap(ReadGpr(gpr, Ra(raw)) * ReadGpr(gpr, Rb(raw)));
      gpr := WriteGpr(gpr, Rd(raw), result);
      flags := flags.(overflow := false);
      UpdateFlags(result);
      return CycleWeight(Mul, 0), Fine;
    }

    method OpJmp(raw: word) returns (cycles: nat, status: Status)
      requires Valid()
      modifies this`pc
      ensures Valid() && HandledAs(State(), cycles, status) == ExecJump(old(State()), raw)
    {
      pc := Target(raw);
      return CycleWeight(Jmp, 0), Fine;
    }

    method OpBeq(raw: word) returns (cycles: nat, status: Status)
      requires Valid() && Op(raw).Beq?
      modifies this`pc
      ensures Valid() && HandledAs(State(), cycles, status) == ExecBranch(old(State()), raw)
    {
      if Rd(raw) >= NUM_GPR || Ra(raw) >= NUM_GPR {
        return 0, Raised(Undefined);
      }
      cycles := CycleWeight(Beq, 0);
      if ReadGpr(gpr, Rd(raw)) == ReadGpr(gpr, Ra(raw)) {
        pc := Wrap(pc + Simm16(raw));
        cycles := cycles + 1;
      }
      status := Fine;
    }

    method OpBne(raw: word) returns (cycles: nat, status: Status)
      requires Valid() && Op(raw).Bne?
      modifies this`pc
      ensures Valid() && HandledAs(State(), cycles, status) == ExecBranch(old(State()), raw)
    {
      if Rd(raw) >= NUM_GPR || Ra(raw) >= NUM_GPR {
        return 0, Raised(Undefined);
      }
      cycles := CycleWeight(Bne, 0);
      if ReadGpr(gpr, Rd(raw)) != ReadGpr(gpr, Ra(raw)) {
        pc := Wrap(pc + Simm16(raw));
        cycles := cycles + 1;
      }
      status := Fine;
    }

    method OpMov(raw: word) returns (cycles: nat, status: Status)
      requires Valid()
      modifies this`gpr
      ensures Valid() && HandledAs(State(), cycles, status) == ExecMov(old(State()), raw)
    {
      if Ra(raw) >= NUM_GPR || Rd(raw) >= NUM_GPR {
        return 0, Raised(Undefined);
      }
      gpr := WriteGpr(gpr, Rd(raw), ReadGpr(gpr, Ra(raw)));
      return CycleWeight(Mov, 0), Fine;
    }

    method OpMovi(raw: word) returns (cycles: nat, status: Status)
      requires Valid()
      modifies this`gpr
      ensures Valid() && HandledAs(State(), cycles, status) == ExecMovi(old(State()), raw)
    {
      if Rd(raw) >= NUM_GPR {
        return 0, Raised(Undefined);
      }
      gpr := WriteGpr(gpr, Rd(raw), Imm16(raw));
      return CycleWeight(Movi, 0), Fine;
    }

    // ------------------------------------------------------------ memory handlers

    method IssueAxi(addr: word, bytes: word, isWrite: bool) returns (accepted: bool)
      requires Valid()
      modifies axi
      ensures Valid() && State() == OfferAxi(old(State()), addr, bytes, isWrite)
      ensures accepted <==> !Fabric.Full(old(State()).t.axi)
    {
      accepted := axi.IssueTransaction(Fabric.Transaction(addr, bytes, isWrite, prof.cycles, 0), prof.cycles);
    }

    method OpLoad(raw: word) returns (cycles: nat, status: Status)
      requires Valid()
      modifies axi, timer, this`gpr
      ensures Valid() && HandledAs(State(), cycles, status) == ExecLoad(old(State()), raw)
    {
      hide Rd, Ra, Op, WriteGpr, ReadGpr, Simm16, OfferAxi, BusValue, BusAfterRead, BusServes;
      cycles := 0;
      if Ra(raw) >= NUM_GPR {
        return 0, Raised(Undefined);
      }
      var addr := Wrap(ReadGpr(gpr, Ra(raw)) + Simm16(raw));
      var _ := IssueAxi(addr, 4, false);
      var value;
      value, status := BusRead32(addr);
      if status.Raised? {
        return;
      }
      if Rd(raw) >= NUM_GPR {
        return 0, Raised(Undefined);
      }
      gpr := WriteGpr(gpr, Rd(raw), value);
      return CycleWeight(Load, 0), Fine;
    }

    method OpStore(raw: word) returns (cycles: nat, status: Status)
      requires Valid()
      modifies axi, timer, this`uart, scratchpad
      ensures Valid() && HandledAs(State(), cycles, status) == ExecStore(old(State()), raw)
    {
      cycles := 0;
      if Ra(raw) >= NUM_GPR || Rd(raw) >= NUM_GPR {
        return 0, Raised(Undefined);
      }
      var addr := Wrap(ReadGpr(gpr, Ra(raw)) + Simm16(raw));
      var value := ReadGpr(gpr, Rd(raw));
      var _ := IssueAxi(addr, 4, true);
      status := BusWrite32(addr, value);
      if status.Fine? {
        cycles := CycleWeight(Store, 0);
      }
    }

    method OpLoadVr(raw: word) returns (cycles: nat, status: Status)
      requires Valid()
      modifies vr
      ensures Valid() && HandledAs(State(), cycles, status) == ExecLoadVr(old(State()), raw)
    {
      hide LanesFrom;
      if Ra(raw) >= NUM_GPR || Rd(raw) >= NUM_VR {
        return 0, Raised(Undefined);
      }
      var addr := Wrap(ReadGpr(gpr, Ra(raw)) + Simm16(raw));
      if addr + VR_BYTE_SIZE > scratchpad.Length {
        return 0, Raised(AccessOutOfBounds);
      }
      ReadLanes(vr, Rd(raw), scratchpad[..], addr);
      return CycleWeight(LoadVr, 0), Fine;
    }

    method OpStoreVr(raw: word) returns (cycles: nat, status: Status)
      requires Valid()
      modifies scratchpad
      ensures Valid() && HandledAs(State(), cycles, status) == ExecStoreVr(old(State()), raw)
    {
      if Ra(raw) >= NUM_GPR || Rd(raw) >= NUM_VR {
        return 0, Raised(Undefined);
      }
      var addr := Wrap(ReadGpr(gpr, Ra(raw)) + Simm16(raw));
      if addr + VR_BYTE_SIZE > scratchpad.Length {
        return 0, Raised(AccessOutOfBounds);
      }
      CopyInto(scratchpad, addr, LaneBytes(vr[..], Rd(raw)));
      return CycleWeight(StoreVr, 0), Fine;
    }

    // ------------------------------------------------------------ tensor and DMA handlers

    method OpVecAdd(raw: word) returns (cycles: nat, status: Status)
      requires Valid()
      modifies vr
      ensures Valid() && HandledAs(State(), cycles, status) == ExecVecAdd(cfg, old(State()), raw)
    {
      if !VecOperands(raw) {
        return 0, Raised(Undefined);
      }
      if cfg.accel {
        VecAddAvx2(cfg.fpu, vr, Rd(raw), Ra(raw), Rb(raw));
      } else {
        VecAddScalar(cfg.fpu, vr, Rd(raw), Ra(raw), Rb(raw));
      }
      return ProfileWeight(cfg, raw, 0), Fine;
    }

    method OpMatmulTile(raw: word) returns (cycles: nat, status: Status)
      requires Valid()
      modifies vr
      ensures Valid() && HandledAs(State(), cycles, status) == ExecMatmul(cfg, old(State()), raw)
    {
      var n := TileSize(raw);
      if n == 0 || n > TILE_SIZE {
        return 0, Raised(BadTile);
      }
      if !VecOperands(raw) {
        return 0, Raised(Undefined);
      }
      if cfg.accel {
        MatmulHost(cfg.fpu, vr, Rd(raw), Ra(raw), Rb(raw), n);
      } else {
        MatmulScalar(cfg.fpu, vr, Rd(raw), Ra(raw), Rb(raw), n);
      }
      return ProfileWeight(cfg, raw, n), Fine;
    }

    method OpDmaLoad(raw: word) returns (cycles: nat, status: Status)
      requires Valid()
      modifies axi, prof, scratchpad
      ensures Valid() && HandledAs(State(), cycles, status) == ExecDmaLoad(cfg, old(State()), raw)
    {
      hide ProfileWeight, Record, Splice, Wrap, Rd, Ra, ReadGpr, Fabric.Full, OfferAxi;
      if Rd(raw) >= NUM_GPR || Ra(raw) >= NUM_GPR {
        return 0, Raised(Undefined);
      }
      var dest, src, bytes := ReadGpr(gpr, Rd(raw)), ReadGpr(gpr, Ra(raw)), Func(raw);
      if Wrap(dest + bytes) > scratchpad.Length {
        return 0, Raised(DmaScratchpadBounds);
      }
      if Wrap(src + bytes) > mainRam.Length {
        return 0, Raised(DmaRamBounds);
      }
      var accepted := IssueAxi(dest, bytes, false);
      if !accepted {
        prof.Count(raw, 1, 0);
      }
      if dest + bytes > scratchpad.Length || src + bytes > mainRam.Length {
        return 0, Raised(Undefined);
      }
      CopyInto(scratchpad, dest, mainRam[src..src + bytes]);
      return ProfileWeight(cfg, raw, bytes), Fine;
    }

    method OpDmaStore(raw: word) returns (cycles: nat, status: Status)
      requires Valid()
      modifies axi, mainRam
      ensures Valid() && HandledAs(State(), cycles, status) == ExecDmaStore(cfg, old(State()), raw)
    {
      hide ProfileWeight, Record, Splice, Wrap, Rd, Ra, ReadGpr, Fabric.Full, OfferAxi;
      if Rd(raw) >= NUM_GPR || Ra(raw) >= NUM_GPR {
        return 0, Raised(Undefined);
      }
      var dest, src, bytes := ReadGpr(gpr, Rd(raw)), ReadGpr(gpr, Ra(raw)), Func(raw);
      if Wrap(dest + bytes) > mainRam.Length {
        return 0, Raised(DmaRamBounds);
      }
      if Wrap(src + bytes) > scratchpad.Length {
        return 0, Raised(DmaScratchpadBounds);
      }
      var _ := IssueAxi(src, bytes, true);
      if dest + bytes > mainRam.Length || src + bytes > scratchpad.Length {
        return 0, Raised(Undefined);
      }
      CopyInto(mainRam, dest, scratchpad[src..src + bytes]);
      return ProfileWeight(cfg, raw, bytes), Fine;
    }

    // ------------------------------------------------------------ dispatch

    method OpHalt() returns (cycles: nat, status: Status)
      requires Valid()
      modifies this`halt
      ensures Valid() && HandledAs(State(), cycles, status) == Done(old(State()).(a := old(State()).a.(halt := true)), 0)
    {
      halt := true;
      return 0, Fine;
    }

    /** The jump table. */
    method Dispatch(raw: word) returns (cycles: nat, status: Status)
      requires Valid() && !Op(raw).Unassigned?
      modifies Parts()
      ensures Valid() && cfg == old(cfg)
      ensures HandledAs(State(), cycles, status) == Handle(cfg, old(State()), raw)
    {
      hide ExecAlu, ExecJump, ExecBranch, ExecLoad, ExecStore, ExecMov, ExecMovi, ExecLoadVr, ExecStoreVr;
      hide ExecVecAdd, ExecMatmul, ExecDmaLoad, ExecDmaStore, OpcodeOf, State;
      match Op(raw) {
        case Nop => cycles, status := CycleWeight(Nop, 0), Fine;
        case Halt => cycles, status := OpHalt();
        case Jmp => cycles, status := OpJmp(raw);
        case Beq => cycles, status := OpBeq(raw);
        case Bne => cycles, status := OpBne(raw);
        case Add => cycles, status := OpAdd(raw);
        case Sub => cycles, status := OpSub(raw);
        case Mul => cycles, status := OpMul(raw);
        case Load => cycles, status := OpLoad(raw);
        case Store => cycles, status := OpStore(raw);
        case Mov => cycles, status := OpMov(raw);
        case Movi => cycles, status := OpMovi(raw);
        case LoadVr => cycles, status := OpLoadVr(raw);
        case StoreVr => cycles, status := OpStoreVr(raw);
        case VecAdd => cycles, status := OpVecAdd(raw);
        case MatmulTile => cycles, status := OpMatmulTile(raw);
        case DmaLoad => cycles, status := OpDmaLoad(raw);
        case DmaStore => cycles, status := OpDmaStore(raw);
      }
    }

    method ExecuteWord(raw: word) returns (status: Status)
      requires Valid()
      modifies Parts()
      ensures Valid() && cfg == old(cfg)
      ensures OutcomeAs(State(), status) == Execute(cfg, old(State()), raw)
    {
      hide Handle, Record;
      if Op(raw).Unassigned? {
        if csr.mtvec == 0 {
          return Raised(UnknownOpcode(OpField(raw)));
        }
        csr := TakeTrap(csr, 2, raw, Wrap(pc - 4));
        pc := VectorBase(csr);
        return Fine;
      }
      var cycles;
      cycles, status := Dispatch(raw);
      if status.Fine? {
        prof.Count(raw, cycles, if Op(raw).DmaLoad? || Op(raw).DmaStore? then Func(raw) else 0);
        accum := accum + cycles;
      }
    }

    method Tick()
      requires Valid()
      modifies Parts()
      ensures Valid() && cfg == old(cfg) && State() == Ticked(old(State()))
    {
      ghost var was := State();
      while accum >= CYCLES_PER_TICK
        invariant Valid() && cfg == old(cfg)
        invariant Ticked(State()) == Ticked(was)
        decreases accum
      {
        TickOnceInPlace();
      }
    }

    method TickOnceInPlace()
      requires Valid() && accum >= CYCLES_PER_TICK
      modifies timer, this`mip, this`accum, axi, pcie
      ensures Valid() && accum == old(accum) - CYCLES_PER_TICK
      ensures State() == old(State()).(t := TickOnce(old(State()).t))
    {
      hide TimerTick, Fabric.Tick;
      timer.Tick(CYCLES_PER_TICK);
      if timer.irq {
        mip := mip + {TIMER_LINE};
      } else {
        mip := mip - {TIMER_LINE};
      }
      axi.Advance(CYCLES_PER_TICK);
      pcie.Advance(CYCLES_PER_TICK);
      accum := accum - CYCLES_PER_TICK;
    }

    /** Execute a word already fetched, as the replay loop does. */
    method IssueWord(raw: word) returns (status: Status)
      requires Valid()
      modifies Parts()
      ensures Valid() && cfg == old(cfg)
      ensures OutcomeAs(State(), status) == Issue(cfg, old(State()), raw)
    {
      hide Execute, TickPeripherals;
      pc := Wrap(pc + 4);
      status := ExecuteWord(raw);
      if status.Fine? {
        Tick();
      }
    }

    // ------------------------------------------------------------ the run loops

    method TakePendingInterrupt()
      requires Valid()
      modifies this`csr, this`pc
      ensures Valid() && State() == EnterInterrupt(old(State()))
    {
      var live := mip * csr.enabled;
      if !csr.mie {
        return;
      }
      var cause: nat :=
        if 11 in live then 0x800B else if 7 in live then 0x8007 else if 3 in live then 0x8003
        else if 9 in live then 0x8009 else if 5 in live then 0x8005 else 0;
      if cause != 0 {
        csr := TakeTrap(csr, cause + 0x8000_0000_0000_0000, 0, 0);
        var base := VectorBase(csr);
        pc := if csr.mtvec % 2 == 1 then Wrap(base + cause % 0x100 * 4) else base;
      }
    }

    method StepOnce() returns (status: Status)
      requires Valid()
      modifies Parts()
      ensures Valid() && cfg == old(cfg)
      ensures OutcomeAs(State(), status) == Step(cfg, old(State()))
    {
      hide Issue, EnterInterrupt, BusValue, BusAfterRead;
      if halt {
        return Fine;
      }
      TakePendingInterrupt();
      var raw;
      raw, status := BusRead32(pc);
      if status.Fine? {
        status := IssueWord(raw);
      }
    }

    predicate Resting()
      reads this
    {
      halt || pc in cfg.breakpoints
    }

    /** The interpreter loop, given at most `fuel` steps. */
    method RunLoop(fuel: nat) returns (status: Status)
      requires Valid()
      modifies Parts()
      ensures Valid() && cfg == old(cfg)
      ensures ExitAs(cfg, State(), status) == Run(cfg, old(State()), fuel)
    {
      hide Step;
      ghost var was := State();
      status := Fine;
      var left: nat := fuel;
      while left > 0 && !Resting()
        invariant Valid() && cfg == old(cfg) && left <= fuel && status.Fine?
        invariant Run(cfg, State(), left) == Run(cfg, was, fuel)
        decreases left
      {
        status := StepOnce();
        if status.Raised? {
          return;
        }
        left := left - 1;
      }
    }

    /** Replay a decoded block. */
    method ReplayBlock(ops: seq<word>) returns (status: Status)
      requires Valid()
      modifies Parts()
      ensures Valid() && cfg == old(cfg)
      ensures OutcomeAs(State(), status) == Replay(cfg, old(State()), ops)
    {
      hide Issue;
      ghost var was := State();
      var i: nat := 0;
      status := Fine;
      assert ops[0..] == ops;
      while i < |ops|
        invariant Valid() && cfg == old(cfg) && i <= |ops| && status.Fine?
        invariant Replay(cfg, State(), ops[i..]) == Replay(cfg, was, ops)
        decreases |ops| - i
      {
        assert ops[i..][0] == ops[i] && ops[i..][1..] == ops[i + 1..];
        if Resting() {
          return;
        }
        status := IssueWord(ops[i]);
        if status.Raised? || EndsBlock(ops[i]) {
          return;
        }
        i := i + 1;
      }
    }

    /** The block-cached loop, given at most `fuel` turns. */
    method RunFastLoop(fuel: nat) returns (status: Status)
      requires Valid()
      modifies Parts(), blockCache
      ensures Valid() && cfg == old(cfg)
      ensures (blockCache.Value(), ExitAs(cfg, State(), status))
           == FastRun(cfg, old(State()), old(blockCache.Value()), fuel)
    {
      hide Turn;
      ghost var was, cache := State(), blockCache.Value();
      status := Fine;
      var left: nat := fuel;
      while left > 0 && !Resting()
        invariant Valid() && cfg == old(cfg) && left <= fuel && status.Fine?
        invariant FastRun(cfg, State(), blockCache.Value(), left) == FastRun(cfg, was, cache, fuel)
        decreases left
      {
        status := TurnOnce();
        if status.Raised? {
          return;
        }
        left := left - 1;
      }
    }

    method TurnOnce() returns (status: Status)
      requires Valid()
      modifies Parts(), blockCache
      ensures Valid() && cfg == old(cfg)
      ensures (blockCache.Value(), OutcomeAs(State(), status)) == Turn(cfg, old(State()), old(blockCache.Value()))
    {
      hide Step, Fetch, Replay;
      if cfg.verbose {
        status := StepOnce();
        return;
      }
      var found := blockCache.Lookup(scratchpad, pc);
      match found {
        case ReadFault => status := Raised(AccessOutOfBounds);
        case Found(b) => status := ReplayBlock(b.ops);
      }
    }

    // ------------------------------------------------------------ loading and targets

    /** Programs go to the start of the scratchpad; decoded blocks of the previous one are dropped. */
    method LoadProgram(bytes: seq<byte>) returns (status: Status)
      requires Valid()
      modifies scratchpad, blockCache
      ensures Valid()
      ensures status == if |bytes| > TEXT_SIZE then Raised(ProgramTooLarge)
                        else if |bytes| > scratchpad.Length then Raised(AccessOutOfBounds) else Fine
      ensures State().a == if status.Fine? then old(State()).a.(mem := Splice(old(scratchpad[..]), 0, bytes))
                           else old(State()).a
      ensures State().t == old(State()).t
      ensures blockCache.Value() == if status.Fine? then EMPTY else old(blockCache.Value())
    {
      if |bytes| > TEXT_SIZE {
        return Raised(ProgramTooLarge);
      }
      if |bytes| > scratchpad.Length {
        return Raised(AccessOutOfBounds);
      }
      CopyInto(scratchpad, 0, bytes);
      blockCache.Clear();
      return Fine;
    }

    /** A new target profile changes the cycle overrides and drops the decoded blocks. */
    method SetTarget(overrides: PerOpcode)
      requires Valid()
      modifies this`cfg, blockCache
      ensures Valid() && cfg == old(cfg).(overrides := overrides)
      ensures State() == old(State()) && blockCache.Value() == EMPTY
    {
      cfg := cfg.(overrides := overrides);
      blockCache.Clear();
    }

    // ------------------------------------------------------------ construction

    constructor (scratchpadBytes: nat, mainRamBytes: nat, fpu: Fpu)
      ensures Valid() && State() == PowerOn(scratchpadBytes, mainRamBytes)
      ensures blockCache.Value() == EMPTY
      ensures cfg == Config(seq(64, _ => 0), true, {}, false, fpu)
      ensures fresh(Parts()) && fresh(blockCache)
    {
      cfg := Config(seq(64, _ => 0), true, {}, false, fpu);
      gpr, pc, halt, flags := seq(16, _ => 0), 0, false, Flags(false, false, false);
      csr, uart, accum, mip := CSR_RESET, [], 0, {};
      var lanes := ZeroedLanes();
      var bytes := ZeroedBytes(scratchpadBytes);
      var ramBytes := ZeroedBytes(mainRamBytes);
      vr, scratchpad, mainRam := lanes, bytes, ramBytes;
      timer := new TimerDevice();
      prof := new ProfilerUnit();
      axi := new Fabric.Interconnect(Fabric.Config(64, 2, 8, 16));
      pcie := new Fabric.Interconnect(Fabric.Config(64, 4, 4, 8));
      blockCache := new BlockCache();
    }
  }

  /** What a loop has to report when it returns. */
  function ExitAs(c: Config, m: Machine, status: Status): Exit {
    match status
    case Raised(fault) => Threw(m, fault)
    case Fine => if AtRest(c, m) then Stopped(m) else Running(m)
  }
}
