/** What lowering preserves: straight-line RV32 code over x0..x14 is simulated step for step, and for the
    rest the exact condition under which a lowered word still means what the guest word meant. */
module Simulation {
  import opened Words
  import opened Isa
  import opened Machine
  import opened Lowering

  // ---------------------------------------------------------------- the guest

  const GUEST_REGS: nat := 15

  /** x0..x14 and the byte-addressed memory, which is the machine's scratchpad. */
  type Xs = s: seq<word> | |s| == 15 witness seq(15, _ => 0)

  datatype Guest = Guest(x: Xs, mem: seq<byte>)

  function ReadX(x: Xs, r: nat): word
    requires r < GUEST_REGS
  {
    if r == 0 then 0 else x[r]
  }

  /** x0 is hard-wired. */
  function WriteX(x: Xs, r: nat, v: word): Xs
    requires r < GUEST_REGS
  {
    if r == 0 then x else x[r := v]
  }

  datatype Kind = AddK | SubK | MulK | AddiK | LwK | SwK | OtherK

  /** The instruction a guest word is in RV32IM (sections 2.4, 2.6 and 7.1), among those simulated:
      registers up to x14 and, for ADDI, a non-negative immediate. */
  function KindOf(w: word): Kind {
    var rd, rs1, rs2 := GRd(w) < GUEST_REGS, Rs1(w) < GUEST_REGS, Rs2(w) < GUEST_REGS;
    if Major(w) == 0x33 && Funct3(w) == 0 && rd && rs1 && rs2 then
      if Funct7(w) == 0x00 then AddK else if Funct7(w) == 0x20 then SubK else if Funct7(w) == 0x01 then MulK else OtherK
    else if Major(w) == 0x13 && Funct3(w) == 0 && rd && rs1 && ImmI(w) >= 0 then AddiK
    else if Major(w) == 0x03 && Funct3(w) == 2 && rd && rs1 then LwK
    else if Major(w) == 0x23 && Funct3(w) == 2 && rs1 && rs2 then SwK
    else OtherK
  }

  lemma KindFields(w: word)
    ensures var k := KindOf(w);
      && (k.AddK? || k.SubK? || k.MulK? ==> GRd(w) < 15 && Rs1(w) < 15 && Rs2(w) < 15)
      && (k.AddiK? ==> GRd(w) < 15 && Rs1(w) < 15 && 0 <= ImmI(w) < 0x800)
      && (k.LwK? ==> GRd(w) < 15 && Rs1(w) < 15)
      && (k.SwK? ==> Rs1(w) < 15 && Rs2(w) < 15)
  {
  }

  function Address(g: Guest, w: word): word
    requires KindOf(w).LwK? || KindOf(w).SwK?
  {
    KindFields(w);
    Wrap(ReadX(g.x, Rs1(w)) + if KindOf(w).LwK? then ImmI(w) else ImmS(w))
  }

  /** No device window is at the address. */
  predicate Plain(addr: nat) {
    !InTimer(addr) && !InUart(addr)
  }

  /** The word is one of those simulated, and a data access of it is to plain memory, a store past the
      first `text` bytes. */
  predicate Admissible(g: Guest, w: word, text: nat) {
    !KindOf(w).OtherK?
    && (KindOf(w).LwK? || KindOf(w).SwK? ==> Address(g, w) + 4 <= |g.mem| && Plain(Address(g, w)))
    && (KindOf(w).SwK? ==> Address(g, w) >= text)
  }

  /** RV32 semantics of one admissible word. */
  function GuestStep(g: Guest, w: word, text: nat): Guest
    requires Admissible(g, w, text)
  {
    KindFields(w);
    match KindOf(w)
    case AddK => g.(x := WriteX(g.x, GRd(w), Wrap(ReadX(g.x, Rs1(w)) + ReadX(g.x, Rs2(w)))))
    case SubK => g.(x := WriteX(g.x, GRd(w), Wrap(ReadX(g.x, Rs1(w)) - ReadX(g.x, Rs2(w)))))
    case MulK => g.(x := WriteX(g.x, GRd(w), Wrap(ReadX(g.x, Rs1(w)) * ReadX(g.x, Rs2(w)))))
    case AddiK => g.(x := WriteX(g.x, GRd(w), Wrap(ReadX(g.x, Rs1(w)) + ImmI(w))))
    case LwK => g.(x := WriteX(g.x, GRd(w), Read32(g.mem, Address(g, w))))
    case SwK => g.(mem := Write32(g.mem, Address(g, w), ReadX(g.x, Rs2(w))))
  }

  /** Every word of the program is admissible when its turn comes. */
  predicate AdmissibleRun(g: Guest, prog: seq<word>, text: nat)
    decreases |prog|
  {
    prog == [] ||
    (Admissible(g, prog[0], text) && AdmissibleRun(GuestStep(g, prog[0], text), prog[1..], text))
  }

  function GuestRun(g: Guest, prog: seq<word>, text: nat): Guest
    requires AdmissibleRun(g, prog, text)
    decreases |prog|
  {
    if prog == [] then g else GuestRun(GuestStep(g, prog[0], text), prog[1..], text)
  }

  function Addis(prog: seq<word>): nat {
    if prog == [] then 0 else (if KindOf(prog[0]).AddiK? then 1 else 0) + Addis(prog[1..])
  }

  // ---------------------------------------------------------------- the host

  function Steps(c: Config, m: Machine, n: nat): Outcome
    decreases n
  {
    if n == 0 then Next(m)
    else match Step(c, m)
      case Thrown(m1, fault) => Thrown(m1, fault)
      case Next(m1) => Steps(c, m1, n - 1)
  }

  /** Machine and guest agree on x0..x14 and on memory; the machine is running undisturbed. */
  predicate Agree(g: Guest, m: Machine) {
    && !m.a.halt && !m.a.csr.mie && m.a.mem == g.mem
    && forall r :: 0 <= r < GUEST_REGS ==> ReadGpr(m.a.gpr, r) == ReadX(g.x, r)
  }

  /** `words` stand in memory from `at` on, in plain memory. */
  ghost predicate Holds(mem: seq<byte>, at: nat, words: seq<word>) {
    && at + 4 * |words| <= |mem| && at + 4 * |words| <= MMIO_BASE
    && forall j :: 0 <= j < |words| ==> Read32(mem, at + 4 * j) == words[j]
  }

  /** A running machine without interrupts issues the word at pc. */
  lemma StepAt(c: Config, m: Machine, raw: word)
    requires !m.a.halt && !m.a.csr.mie && m.a.pc < MMIO_BASE && m.a.pc + 4 <= |m.a.mem|
    requires Read32(m.a.mem, m.a.pc) == raw
    ensures Step(c, m) == Issue(c, m, raw)
  {
  }

  // ---------------------------------------------------------------- what the emitted words do

  /** An issue whose handler completes shows the handler's registers and memories. */
  lemma IssueDone(c: Config, m: Machine, raw: word, h: Handled)
    requires !Op(raw).Unassigned? && h.Done? && Handle(c, Advance(m), raw) == h
    ensures Issue(c, m, raw).Next? && Issue(c, m, raw).m.a == h.m.a
  {
    hide Handle, TickPeripherals, Advance;
  }

  /** Sum, difference or product. */
  function AluValue(op: Opcode, x: word, y: word): word {
    if op.Add? then Wrap(x + y) else if op.Sub? then Wrap(x - y) else Wrap(x * y)
  }

  lemma IssueAlu(c: Config, m: Machine, raw: word)
    requires Op(raw).Add? || Op(raw).Sub? || Op(raw).Mul?
    requires Rd(raw) < 16 && Ra(raw) < 16 && Rb(raw) < 16
    ensures var x, y := ReadGpr(m.a.gpr, Ra(raw)), ReadGpr(m.a.gpr, Rb(raw));
      var v := AluValue(Op(raw), x, y);
      Issue(c, m, raw).Next? && Issue(c, m, raw).m.a ==
        m.a.(pc := Wrap(m.a.pc + 4), gpr := WriteGpr(m.a.gpr, Rd(raw), v), flags := FlagsOf(v))
  {
    hide Op, Rd, Ra, Rb, Wrap, Issue, WriteGpr;
    IssueDone(c, m, raw, ExecAlu(Advance(m), raw));
  }

  lemma IssueMovi(c: Config, m: Machine, raw: word)
    requires Op(raw).Movi? && Rd(raw) < 16
    ensures Issue(c, m, raw).Next? && Issue(c, m, raw).m.a ==
        m.a.(pc := Wrap(m.a.pc + 4), gpr := WriteGpr(m.a.gpr, Rd(raw), Imm16(raw)))
  {
    hide Op, Rd, Imm16, Wrap, Issue, WriteGpr;
    IssueDone(c, m, raw, ExecMovi(Advance(m), raw));
  }

  lemma IssueLoad(c: Config, m: Machine, raw: word)
    requires Op(raw).Load? && Rd(raw) < 16 && Ra(raw) < 16
    requires Effective(m, raw) + 4 <= |m.a.mem| && Plain(Effective(m, raw))
    ensures Issue(c, m, raw).Next? && Issue(c, m, raw).m.a ==
        m.a.(pc := Wrap(m.a.pc + 4), gpr := WriteGpr(m.a.gpr, Rd(raw), Read32(m.a.mem, Effective(m, raw))))
  {
    assert Effective(Advance(m), raw) == Effective(m, raw);
    hide Op, Rd, Ra, Wrap, Issue, WriteGpr, Effective, Read32;
    IssueDone(c, m, raw, ExecLoad(Advance(m), raw));
  }

  lemma IssueStoreWord(c: Config, m: Machine, raw: word)
    requires Op(raw).Store? && Rd(raw) < 16 && Ra(raw) < 16
    requires Effective(m, raw) + 4 <= |m.a.mem| && Plain(Effective(m, raw))
    ensures Issue(c, m, raw).Next? && Issue(c, m, raw).m.a ==
        m.a.(pc := Wrap(m.a.pc + 4), mem := Write32(m.a.mem, Effective(m, raw), ReadGpr(m.a.gpr, Rd(raw))))
  {
    assert Effective(Advance(m), raw) == Effective(m, raw);
    hide Op, Rd, Ra, Wrap, Issue, Effective, Write32;
    IssueDone(c, m, raw, ExecStore(Advance(m), raw));
  }

  // ---------------------------------------------------------------- one guest word

  /** Agreement when both sides write the same value to the same register. */
  lemma AgreeWrite(g: Guest, m: Machine, m': Machine, r: nat, v: word)
    requires Agree(g, m) && r < GUEST_REGS
    requires !m'.a.halt && !m'.a.csr.mie && m'.a.mem == m.a.mem && m'.a.gpr == WriteGpr(m.a.gpr, r, v)
    ensures Agree(g.(x := WriteX(g.x, r, v)), m')
  {
    forall k | 0 <= k < GUEST_REGS
      ensures ReadGpr(m'.a.gpr, k) == ReadX(WriteX(g.x, r, v), k)
    {
      assert ReadGpr(m.a.gpr, k) == ReadX(g.x, k);
    }
  }

  /** The scratch register is invisible to the guest. */
  lemma AgreeScratch(g: Guest, m: Machine, m': Machine, v: word)
    requires Agree(g, m)
    requires !m'.a.halt && !m'.a.csr.mie && m'.a.mem == m.a.mem && m'.a.gpr == WriteGpr(m.a.gpr, 15, v)
    ensures Agree(g, m') && ReadGpr(m'.a.gpr, 15) == v
  {
  }

  function AluOp(k: Kind): Opcode {
    if k.AddK? then Add else if k.SubK? then Sub else Mul
  }

  lemma EmittedAlu(w: word)
    requires KindOf(w).AddK? || KindOf(w).SubK? || KindOf(w).MulK?
    ensures |Emitted(w)| == 1
    ensures var raw := Emitted(w)[0];
      Op(raw) == AluOp(KindOf(w)) && Rd(raw) == GRd(w) && Ra(raw) == Rs1(w) && Rb(raw) == Rs2(w)
  {
    KindFields(w);
    hide RType, OpcodeOf, Op, Rd, Ra, Rb, GRd, Rs1, Rs2;
    assert Emitted(w)[0] == RType(AluOp(KindOf(w)), GRd(w), Rs1(w), Rs2(w), 0);
    RTypeFields(AluOp(KindOf(w)), GRd(w), Rs1(w), Rs2(w), 0);
  }

  lemma GuestAlu(g: Guest, w: word, text: nat)
    requires Admissible(g, w, text) && (KindOf(w).AddK? || KindOf(w).SubK? || KindOf(w).MulK?)
    ensures GRd(w) < 15 && Rs1(w) < 15 && Rs2(w) < 15
    ensures GuestStep(g, w, text) ==
      g.(x := WriteX(g.x, GRd(w), AluValue(AluOp(KindOf(w)), ReadX(g.x, Rs1(w)), ReadX(g.x, Rs2(w)))))
  {
    KindFields(w);
    hide Wrap, WriteX, ReadX, GRd, Rs1, Rs2, KindOf;
  }

  lemma SimulateAlu(c: Config, g: Guest, m: Machine, w: word, text: nat)
    requires Agree(g, m) && Admissible(g, w, text)
    requires KindOf(w).AddK? || KindOf(w).SubK? || KindOf(w).MulK?
    ensures |Emitted(w)| == 1
    ensures var out := Issue(c, m, Emitted(w)[0]);
      out.Next? && out.m.a.pc == Wrap(m.a.pc + 4) && Agree(GuestStep(g, w, text), out.m)
  {
    GuestAlu(g, w, text);
    EmittedAlu(w);
    hide Issue, Wrap, WriteGpr, WriteX, FlagsOf, Op, Rd, Ra, Rb, GRd, Rs1, Rs2, Emitted, KindOf;
    hide GuestStep, AluValue, AluOp, Admissible;
    IssueAlu(c, m, Emitted(w)[0]);
    var v := AluValue(AluOp(KindOf(w)), ReadX(g.x, Rs1(w)), ReadX(g.x, Rs2(w)));
    AgreeWrite(g, m, Issue(c, m, Emitted(w)[0]).m, GRd(w), v);
  }

  lemma SimulateLw(c: Config, g: Guest, m: Machine, w: word, text: nat)
    requires Agree(g, m) && Admissible(g, w, text) && KindOf(w).LwK?
    ensures |Emitted(w)| == 1
    ensures var out := Issue(c, m, Emitted(w)[0]);
      out.Next? && out.m.a.pc == Wrap(m.a.pc + 4) && Agree(GuestStep(g, w, text), out.m)
  {
    KindFields(w);
    ImmediateRange(w);
    hide Issue, Wrap, WriteGpr, WriteX, IType, OpcodeOf, Read32, ImmI, ImmS, GRd, Rs1, Signed16;
    var raw := Emitted(w)[0];
    assert raw == IType(Load, GRd(w), Rs1(w), ImmI(w) % 0x1_0000);
    ITypeFields(Load, GRd(w), Rs1(w), ImmI(w) % 0x1_0000);
    assert Effective(m, raw) == Address(g, w);
    IssueLoad(c, m, raw);
    AgreeWrite(g, m, Issue(c, m, raw).m, GRd(w), Read32(g.mem, Address(g, w)));
  }

  lemma SimulateSw(c: Config, g: Guest, m: Machine, w: word, text: nat)
    requires Agree(g, m) && Admissible(g, w, text) && KindOf(w).SwK?
    ensures |Emitted(w)| == 1
    ensures var out := Issue(c, m, Emitted(w)[0]);
      out.Next? && out.m.a.pc == Wrap(m.a.pc + 4) && Agree(GuestStep(g, w, text), out.m)
  {
    KindFields(w);
    ImmediateRange(w);
    hide Issue, Wrap, IType, OpcodeOf, Write32, ImmI, ImmS;
    var raw := Emitted(w)[0];
    assert raw == IType(Store, Rs2(w), Rs1(w), ImmS(w) % 0x1_0000);
    ITypeFields(Store, Rs2(w), Rs1(w), ImmS(w) % 0x1_0000);
    assert Effective(m, raw) == Address(g, w);
    IssueStoreWord(c, m, raw);
  }

  /** Twelve-bit immediates survive the trip through a sixteen-bit field. */
  lemma ImmediateRange(w: word)
    ensures -0x800 <= ImmI(w) < 0x800 && Signed16(ImmI(w) % 0x1_0000) == ImmI(w)
    ensures -0x800 <= ImmS(w) < 0x800 && Signed16(ImmS(w) % 0x1_0000) == ImmS(w)
  {
    ImmediateBits(w);
    hide ImmI, ImmS;
    SixteenBits(ImmI(w));
    SixteenBits(ImmS(w));
  }

  lemma ImmediateBits(w: word)
    ensures -0x800 <= ImmI(w) < 0x800 && -0x800 <= ImmS(w) < 0x800
  {
  }

  /** ADDI is two words: load the immediate into r15, then add. */
  lemma SimulateAddi(c: Config, g: Guest, m: Machine, w: word, text: nat)
    requires Agree(g, m) && Admissible(g, w, text) && KindOf(w).AddiK?
    ensures |Emitted(w)| == 2
    ensures var first := Issue(c, m, Emitted(w)[0]);
      && first.Next? && first.m.a.pc == Wrap(m.a.pc + 4) && Agree(g, first.m)
      && var out := Issue(c, first.m, Emitted(w)[1]);
        out.Next? && out.m.a.pc == Wrap(first.m.a.pc + 4) && Agree(GuestStep(g, w, text), out.m)
  {
    KindFields(w);
    hide Issue, Wrap, WriteGpr, WriteX, FlagsOf, RType, IType, OpcodeOf, ImmI;
    var imm := ImmI(w);
    var movi, add := Emitted(w)[0], Emitted(w)[1];
    assert movi == IType(Movi, 15, 0, imm) && add == RType(Add, GRd(w), Rs1(w), 15, 0);
    ITypeFields(Movi, 15, 0, imm);
    RTypeFields(Add, GRd(w), Rs1(w), 15, 0);
    IssueMovi(c, m, movi);
    var m1 := Issue(c, m, movi).m;
    AgreeScratch(g, m, m1, imm);
    IssueAlu(c, m1, add);
    var x: int := ReadX(g.x, Rs1(w));
    AgreeWrite(g, m1, Issue(c, m1, add).m, GRd(w), Wrap(x + imm));
  }

  // ---------------------------------------------------------------- whole programs

  /** Steps through the words of memory that one guest word became. */
  lemma SimulateWord(c: Config, g: Guest, m: Machine, w: word, text: nat)
    requires Agree(g, m) && Admissible(g, w, text) && m.a.pc + 8 < TWO32
    requires Holds(m.a.mem, m.a.pc, Emitted(w))
    ensures |Emitted(w)| == if KindOf(w).AddiK? then 2 else 1
    ensures var out := Steps(c, m, |Emitted(w)|);
      && out.Next? && out.m.a.pc == m.a.pc + 4 * |Emitted(w)| && Agree(GuestStep(g, w, text), out.m)
  {
    hide Step, Issue, Read32, Emitted, GuestStep, KindOf;
    if KindOf(w).AddiK? {
      SimulateAddi(c, g, m, w, text);
      HoldsAt(m.a.mem, m.a.pc, Emitted(w), 0);
      HoldsAt(m.a.mem, m.a.pc, Emitted(w), 1);
      StepAt(c, m, Emitted(w)[0]);
      var m1 := Issue(c, m, Emitted(w)[0]).m;
      StepAt(c, m1, Emitted(w)[1]);
      TwoSteps(c, m, m1, Issue(c, m1, Emitted(w)[1]).m, 2);
    } else {
      SimulateOne(c, g, m, w, text);
      HoldsAt(m.a.mem, m.a.pc, Emitted(w), 0);
      StepAt(c, m, Emitted(w)[0]);
      OneStep(c, m, Issue(c, m, Emitted(w)[0]).m, 1);
    }
  }

  lemma SimulateOne(c: Config, g: Guest, m: Machine, w: word, text: nat)
    requires Agree(g, m) && Admissible(g, w, text) && !KindOf(w).AddiK?
    ensures |Emitted(w)| == 1
    ensures var out := Issue(c, m, Emitted(w)[0]);
      out.Next? && out.m.a.pc == Wrap(m.a.pc + 4) && Agree(GuestStep(g, w, text), out.m)
  {
    hide Issue, Emitted, GuestStep;
    var k := KindOf(w);
    if k.LwK? {
      SimulateLw(c, g, m, w, text);
    } else if k.SwK? {
      SimulateSw(c, g, m, w, text);
    } else {
      SimulateAlu(c, g, m, w, text);
    }
  }

  lemma HoldsAt(mem: seq<byte>, at: nat, words: seq<word>, j: nat)
    requires Holds(mem, at, words) && j < |words|
    ensures at + 4 * j + 4 <= |mem| && at + 4 * j < MMIO_BASE && Read32(mem, at + 4 * j) == words[j]
  {
  }

  lemma OneStep(c: Config, m: Machine, m1: Machine, n: nat)
    requires n == 1 && Step(c, m) == Next(m1)
    ensures Steps(c, m, n) == Next(m1)
  {
    hide Step;
    assert Steps(c, m1, n - 1) == Next(m1);
  }

  lemma TwoSteps(c: Config, m: Machine, m1: Machine, m2: Machine, n: nat)
    requires n == 2 && Step(c, m) == Next(m1) && Step(c, m1) == Next(m2)
    ensures Steps(c, m, n) == Next(m2)
  {
    hide Step;
    OneStep(c, m1, m2, n - 1);
  }

  lemma {:induction false} StepsCompose(c: Config, m: Machine, j: nat, k: nat)
    requires Steps(c, m, j).Next?
    ensures Steps(c, m, j + k) == Steps(c, Steps(c, m, j).m, k)
    decreases j
  {
    hide Step;
    if j > 0 {
      StepsCompose(c, Step(c, m).m, j - 1, k);
    }
  }

  /** Lowering from the front. */
  lemma {:induction false} LowerAllCons(prog: seq<word>)
    requires prog != []
    ensures LowerAll(prog) == Emitted(prog[0]) + LowerAll(prog[1..])
  {
    hide Emitted;
    var init, last, tail := prog[..|prog| - 1], prog[|prog| - 1], prog[1..];
    LowerAllSnoc(prog);
    if |prog| == 1 {
      assert LowerAll(init) == [] && LowerAll(tail) == [];
    } else {
      hide LowerAll;
      LowerAllCons(init);
      LowerAllSnoc(tail);
      assert tail[..|tail| - 1] == init[1..];
      Associate(Emitted(init[0]), LowerAll(init[1..]), Emitted(last));
    }
  }

  lemma Associate(x: seq<word>, y: seq<word>, z: seq<word>)
    ensures (x + y) + z == x + (y + z)
  {
  }

  lemma LowerAllSnoc(prog: seq<word>)
    requires prog != []
    ensures LowerAll(prog) == LowerAll(prog[..|prog| - 1]) + Emitted(prog[|prog| - 1])
  {
    hide Emitted;
  }

  /** A store past the text leaves every word of it in place. */
  lemma TextStays(g: Guest, w: word, text: nat, at: nat, words: seq<word>)
    requires Admissible(g, w, text) && Holds(g.mem, at, words) && at + 4 * |words| <= text
    ensures Holds(GuestStep(g, w, text).mem, at, words)
  {
    hide Read32, Write32, KindOf, Address, WriteX;
    var mem' := GuestStep(g, w, text).mem;
    forall j | 0 <= j < |words|
      ensures Read32(mem', at + 4 * j) == words[j]
    {
      ReadFrame(g.mem, mem', at + 4 * j);
    }
  }

  lemma HoldsTail(mem: seq<byte>, at: nat, words: seq<word>, more: seq<word>)
    requires Holds(mem, at, words + more)
    ensures Holds(mem, at, words) && Holds(mem, at + 4 * |words|, more)
  {
    hide Read32;
    var all := words + more;
    forall j | 0 <= j < |words|
      ensures Read32(mem, at + 4 * j) == words[j]
    {
      assert all[j] == words[j];
    }
    forall j | 0 <= j < |more|
      ensures Read32(mem, at + 4 * |words| + 4 * j) == more[j]
    {
      assert all[|words| + j] == more[j];
      assert Read32(mem, at + 4 * (|words| + j)) == all[|words| + j];
    }
  }

  /** The simulation, from any place in the text. */
  lemma {:induction false} SimulateFrom(c: Config, g: Guest, m: Machine, prog: seq<word>, text: nat)
    requires Agree(g, m) && AdmissibleRun(g, prog, text)
    requires Holds(m.a.mem, m.a.pc, LowerAll(prog)) && m.a.pc + 4 * |LowerAll(prog)| <= text
    ensures |LowerAll(prog)| == |prog| + Addis(prog)
    ensures var out := Steps(c, m, |LowerAll(prog)|);
      out.Next? && out.m.a.pc == m.a.pc + 4 * |LowerAll(prog)| && Agree(GuestRun(g, prog, text), out.m)
    decreases |prog|
  {
    hide Step, Emitted, Admissible, GuestStep, KindOf, Agree, Holds;
    if prog != [] {
      var w, rest := prog[0], prog[1..];
      LowerAllCons(prog);
      HoldsTail(m.a.mem, m.a.pc, Emitted(w), LowerAll(rest));
      Room(m.a.mem, m.a.pc, Emitted(w));
      SimulateWord(c, g, m, w, text);
      var n := |Emitted(w)|;
      var m1, g1 := Steps(c, m, n).m, GuestStep(g, w, text);
      SameMemory(g, m);
      SameMemory(g1, m1);
      TextStays(g, w, text, m.a.pc + 4 * n, LowerAll(rest));
      SimulateFrom(c, g1, m1, rest, text);
      StepsCompose(c, m, n, |LowerAll(rest)|);
    }
  }

  lemma SameMemory(g: Guest, m: Machine)
    requires Agree(g, m)
    ensures m.a.mem == g.mem
  {
  }

  lemma Room(mem: seq<byte>, at: nat, words: seq<word>)
    requires Holds(mem, at, words)
    ensures at + 8 < TWO32
  {
  }

  /** Lowering is a forward simulation: loaded at address 0, the output takes guest length plus one step
      per ADDI, and leaves x0..x14 and memory as the guest semantics says. */
  lemma LoweringSimulates(c: Config, g: Guest, m: Machine, prog: seq<word>)
    requires Agree(g, m) && m.a.pc == 0 && Holds(m.a.mem, 0, LowerAll(prog))
    requires AdmissibleRun(g, prog, 4 * |LowerAll(prog)|)
    ensures var out := Steps(c, m, |prog| + Addis(prog));
      out.Next? && Agree(GuestRun(g, prog, 4 * |LowerAll(prog)|), out.m)
  {
    hide Steps, Agree, Holds, AdmissibleRun, GuestRun;
    SimulateFrom(c, g, m, prog, 4 * |LowerAll(prog)|);
  }

  // ---------------------------------------------------------------- where lowering changes the meaning

  /** What MOVI and ADD leave in rd: MOVI zero-extends its sixteen bits. */
  function PairValue(g: Guest, w: word): word
    requires Rs1(w) < GUEST_REGS
  {
    Wrap(ReadX(g.x, Rs1(w)) + ImmI(w) % 0x1_0000)
  }

  /** The pair that every I-type arithmetic word becomes executes, and gives a guest effect `v` on rd exactly when
      that is its value, or nothing is kept. */
  lemma PairIff(c: Config, g: Guest, m: Machine, w: word, v: word)
    requires Agree(g, m) && Major(w) == 0x13 && GRd(w) < GUEST_REGS && Rs1(w) < GUEST_REGS
    ensures |Emitted(w)| == 2
    ensures var first := Issue(c, m, Emitted(w)[0]);
      && first.Next?
      && var out := Issue(c, first.m, Emitted(w)[1]);
        && out.Next?
        && (Agree(g.(x := WriteX(g.x, GRd(w), v)), out.m) <==> v == PairValue(g, w) || GRd(w) == 0)
  {
    hide Issue, FlagsOf, RType, IType, OpcodeOf, ImmI, GRd, Rs1;
    var imm, rd := ImmI(w), GRd(w);
    var movi, add := Emitted(w)[0], Emitted(w)[1];
    assert movi == IType(Movi, 15, 0, imm % 0x1_0000) && add == RType(Add, rd, Rs1(w), 15, 0);
    ITypeFields(Movi, 15, 0, imm % 0x1_0000);
    RTypeFields(Add, rd, Rs1(w), 15, 0);
    IssueMovi(c, m, movi);
    var m1 := Issue(c, m, movi).m;
    AgreeScratch(g, m, m1, imm % 0x1_0000);
    IssueAlu(c, m1, add);
    var m2 := Issue(c, m1, add).m;
    var got := PairValue(g, w);
    AgreeWrite(g, m1, m2, rd, got);
    if rd > 0 && got != v {
      assert ReadGpr(m2.a.gpr, rd) == got && ReadX(WriteX(g.x, rd, v), rd) == v;
    }
  }

  /** For ADDI that is so exactly when the immediate is not negative. */
  lemma AddiIffNonNegative(c: Config, g: Guest, m: Machine, w: word)
    requires Agree(g, m) && Major(w) == 0x13 && Funct3(w) == 0 && GRd(w) < GUEST_REGS && Rs1(w) < GUEST_REGS
    ensures |Emitted(w)| == 2
    ensures var first := Issue(c, m, Emitted(w)[0]);
      && first.Next?
      && var out := Issue(c, first.m, Emitted(w)[1]);
        && out.Next?
        && (Agree(g.(x := WriteX(g.x, GRd(w), Wrap(ReadX(g.x, Rs1(w)) + ImmI(w)))), out.m)
            <==> ImmI(w) >= 0 || GRd(w) == 0)
  {
    ImmediateRange(w);
    hide Issue, Emitted, ImmI, GRd, Rs1, Wrap, Agree, Major, Funct3;
    var x: int := ReadX(g.x, Rs1(w));
    PairIff(c, g, m, w, Wrap(x + ImmI(w)));
    SumsAgree(x, ImmI(w));
  }

  lemma SumsAgree(x: int, imm: int)
    requires -0x800 <= imm < 0x800
    ensures Wrap(x + imm % 0x1_0000) == Wrap(x + imm) <==> imm >= 0
  {
    assert imm % 0x1_0000 == if imm >= 0 then imm else imm + 0x1_0000;
  }

  /** A branch's offset is emitted in words but added in bytes: a lowered BEQ or BNE at the same address
      lands where the guest's would exactly when both merely fall through to the next word. */
  lemma BranchIffNextWord(w: word, pc: word)
    requires Major(w) == 0x63 && Funct3(w) <= 1
    ensures |Emitted(w)| == 1
    ensures Wrap(Wrap(pc + 4) + Simm16(Emitted(w)[0])) == Wrap(pc + ImmB(w)) <==> ImmB(w) == 4
  {
    hide IType, OpcodeOf, Wrap;
    var off := Quarter(ImmB(w) - 4);
    var op := if Funct3(w) == 0 then Beq else Bne;
    assert Emitted(w)[0] == IType(op, Rs1(w) % 16, Rs2(w) % 16, off % 0x1_0000);
    ITypeFields(op, Rs1(w) % 16, Rs2(w) % 16, off % 0x1_0000);
    BranchRange(w);
    Targets(pc, off, ImmB(w));
  }

  lemma BranchRange(w: word)
    ensures -0x1000 <= ImmB(w) < 0x1000
    ensures Signed16(Quarter(ImmB(w) - 4) % 0x1_0000) == Quarter(ImmB(w) - 4)
  {
    BranchBits(w);
    hide ImmB;
    QuarterRange(ImmB(w) - 4);
    SixteenBits(Quarter(ImmB(w) - 4));
  }

  lemma BranchBits(w: word)
    ensures -0x1000 <= ImmB(w) < 0x1000
  {
  }

  /** The offset in words is nearer to zero than the offset in bytes, but for zero itself. */
  lemma QuarterRange(x: int)
    requires -0x1004 <= x < 0x1000
    ensures -0x1004 <= Quarter(x) < 0x1000 && -0x2000 < x - Quarter(x) < 0x2000
    ensures x == Quarter(x) <==> x == 0
  {
  }

  lemma SixteenBits(x: int)
    requires -0x8000 <= x < 0x8000
    ensures Signed16(x % 0x1_0000) == x
  {
    if x >= 0 {
      Quotient(x, 0x1_0000, 0, x);
    } else {
      Quotient(x, 0x1_0000, -1, x + 0x1_0000);
    }
  }

  lemma Targets(pc: int, off: int, imm: int)
    requires -0x1000 <= imm < 0x1000 && off == Quarter(imm - 4)
    ensures Wrap(Wrap(pc + 4) + off) == Wrap(pc + imm) <==> imm == 4
  {
    QuarterRange(imm - 4);
    hide Wrap, Quarter;
    WrapAdd(pc + 4, off);
    WrapShift(pc + 4 + off, imm - 4 - off);
    assert pc + 4 + off + (imm - 4 - off) == pc + imm;
  }

  /** JAL becomes an absolute jump: it reaches the guest's target exactly at address 0, or for a backward
      jump at the top of the 26-bit target space. The link register is never written. */
  lemma JumpIffAtOrigin(w: word, pc: word)
    requires Major(w) == 0x6F
    ensures |Emitted(w)| == 1 && Op(Emitted(w)[0]).Jmp?
    ensures Target(Emitted(w)[0]) == Wrap(pc + ImmJ(w)) <==> pc == if ImmJ(w) >= 0 then 0 else 0x400_0000
  {
    hide JType, OpcodeOf;
    assert Emitted(w)[0] == JType(Jmp, ImmJ(w) % 0x400_0000);
    JTypeFields(Jmp, ImmJ(w) % 0x400_0000);
    JumpRange(w);
    hide ImmJ, Emitted, Op, Target, Wrap, Major;
    JumpTargets(pc, ImmJ(w));
  }

  lemma JumpTargets(pc: word, imm: int)
    requires -0x10_0000 <= imm < 0x10_0000
    ensures imm % 0x400_0000 == Wrap(pc + imm) <==> pc == if imm >= 0 then 0 else 0x400_0000
  {
    if imm >= 0 {
      Quotient(imm, 0x400_0000, 0, imm);
    } else {
      Quotient(imm, 0x400_0000, -1, imm + 0x400_0000);
    }
    if 0 <= pc + imm < TWO32 {
      WrapIs(pc + imm, 0);
    } else {
      WrapIs(pc + imm, if pc + imm < 0 then -1 else 1);
    }
    hide Wrap;
  }

  lemma JumpRange(w: word)
    ensures -0x10_0000 <= ImmJ(w) < 0x10_0000
  {
  }
}
