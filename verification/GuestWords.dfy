/** The guest words whose funct3 the lowering ignores: every RV32I register-immediate, load and store word over
    x0..x14, and exactly which of them mean the same once lowered. */
module GuestWords {
  import opened Words
  import opened Isa
  import opened Machine
  import opened Lowering
  import opened Simulation

  // ---------------------------------------------------------------- bitwise operations

  datatype BitOp = XorOp | OrOp | AndOp

  function Bit(op: BitOp, a: nat, b: nat): (r: nat)
    ensures r <= 1
  {
    match op
    case XorOp => if a != b then 1 else 0
    case OrOp => if a == 1 || b == 1 then 1 else 0
    case AndOp => if a == 1 && b == 1 then 1 else 0
  }

  function Pow2(n: nat): (r: nat)
    ensures r > 0
  {
    if n == 0 then 1 else 2 * Pow2(n - 1)
  }

  /** The operation on the low n bits. */
  function Bitwise(op: BitOp, x: nat, y: nat, n: nat): (r: nat)
    ensures r < Pow2(n)
  {
    if n == 0 then 0 else Bit(op, x % 2, y % 2) + 2 * Bitwise(op, x / 2, y / 2, n - 1)
  }

  /** A number with itself, and with zero on either side. */
  lemma {:induction false} BitLaws(x: nat, n: nat)
    requires x < Pow2(n)
    ensures Bitwise(XorOp, x, x, n) == 0 && Bitwise(OrOp, x, x, n) == x
    ensures Bitwise(XorOp, x, 0, n) == Bitwise(XorOp, 0, x, n) == x
    ensures Bitwise(OrOp, x, 0, n) == Bitwise(OrOp, 0, x, n) == x
    ensures Bitwise(AndOp, x, 0, n) == Bitwise(AndOp, 0, x, n) == 0
    decreases n
  {
    if n > 0 {
      BitLaws(x / 2, n - 1);
    }
  }

  lemma {:induction false} Pow2Add(m: nat, n: nat)
    ensures Pow2(m + n) == Pow2(m) * Pow2(n)
    decreases m
  {
    if m > 0 {
      Pow2Add(m - 1, n);
    }
  }

  lemma Pow32(n: nat)
    requires n == 32
    ensures Pow2(n) == TWO32
  {
    hide Pow2;
    var a: nat, b: nat, c: nat := 4, 8, 16;
    Pow2Small(a);
    Pow2Add(a, a);
    Pow2Add(b, b);
    Pow2Add(c, c);
  }

  lemma Pow2Small(n: nat)
    requires n == 4
    ensures Pow2(n) == 16
  {
    assert Pow2(n - 2) == 4 * Pow2(n - 4);
  }

  function OnWords(op: BitOp, x: word, y: word): word {
    Pow32(32);
    Bitwise(op, x, y, 32)
  }

  lemma WordLaws(x: word)
    ensures OnWords(XorOp, x, x) == 0 && OnWords(OrOp, x, x) == x
    ensures OnWords(XorOp, x, 0) == OnWords(XorOp, 0, x) == x
    ensures OnWords(OrOp, x, 0) == OnWords(OrOp, 0, x) == x
    ensures OnWords(AndOp, x, 0) == OnWords(AndOp, 0, x) == 0
  {
    Pow32(32);
    BitLaws(x, 32);
  }

  // ---------------------------------------------------------------- register-immediate words

  /** The register-immediate instructions (section 2.4 of the RISC-V Unprivileged ISA 20191213) by funct3: ADDI, SLLI,
      SLTI, SLTIU, XORI, SRLI or SRAI, ORI, ANDI. A shift's amount is the low five bits of the immediate. */
  function OpImm(funct3: nat, arithmetic: bool, imm: int, x: word): word {
    match funct3
    case 0 => Wrap(x + imm)
    case 1 => Wrap(x * Pow2(imm % 32))
    case 2 => if Signed32(x) < imm then 1 else 0
    case 3 => if x < Wrap(imm) then 1 else 0
    case 4 => OnWords(XorOp, x, Wrap(imm))
    case 5 => Wrap((if arithmetic then Signed32(x) else x) / Pow2(imm % 32))
    case 6 => OnWords(OrOp, x, Wrap(imm))
    case _ => OnWords(AndOp, x, Wrap(imm))
  }

  /** What the lowered pair computes instead. */
  function Pair(imm: int, x: word): word {
    Wrap(x + imm % 0x1_0000)
  }

  /** Legal immediates: twelve bits, of which shifts fix the upper seven. */
  predicate Legal(funct3: nat, arithmetic: bool, imm: int) {
    && funct3 < 8 && -0x800 <= imm < 0x800
    && (funct3 == 1 ==> imm < 32 && imm >= 0)
    && (funct3 == 5 ==> if arithmetic then 0x400 <= imm < 0x420 else 0 <= imm < 32)
  }

  /** When the pair computes the same for every value of rs1. On x0 that is so for ADDI, XORI and ORI with immediates
      that are not negative, for SLTI and SLTIU with zero and one, and for the others with zero; on other registers
      for ADDI again, and for XORI, ORI, SLLI and SRLI with zero. */
  predicate PairMeansIt(funct3: nat, imm: int, onZero: bool) {
    match funct3
    case 0 => imm >= 0
    case 1 => imm == 0
    case 2 => onZero && 0 <= imm <= 1
    case 3 => onZero && 0 <= imm <= 1
    case 4 => if onZero then imm >= 0 else imm == 0
    case 5 => imm == 0
    case 6 => if onZero then imm >= 0 else imm == 0
    case _ => onZero && imm == 0
  }

  /** The value of rs1 that tells the two apart, if any does. */
  function Telling(funct3: nat, imm: int): word {
    match funct3
    case 2 => 2
    case 3 => 2
    case 4 => Wrap(imm)
    case 6 => Wrap(imm)
    case 7 => if imm == 0 then 1 else 0
    case _ => 0
  }

  /** Immediates as words: sign-extended, and as MOVI has them. */
  lemma ImmediateWords(imm: int, x: word)
    requires -0x800 <= imm < 0x800
    ensures Wrap(imm) == if imm >= 0 then imm else imm + TWO32
    ensures imm % 0x1_0000 == if imm >= 0 then imm else imm + 0x1_0000
    ensures Pair(imm, x) == if x + imm % 0x1_0000 < TWO32 then x + imm % 0x1_0000 else x + imm % 0x1_0000 - TWO32
    ensures Wrap(x + imm) == if x + imm < 0 then x + imm + TWO32 else if x + imm < TWO32 then x + imm else x + imm - TWO32
  {
    WrapIs(imm, if imm >= 0 then 0 else -1);
    Quotient(imm, 0x1_0000, if imm >= 0 then 0 else -1, if imm >= 0 then imm else imm + 0x1_0000);
    var z := imm % 0x1_0000;
    WrapIs(x + z, if x + z < TWO32 then 0 else 1);
    WrapIs(x + imm, if x + imm < 0 then -1 else if x + imm < TWO32 then 0 else 1);
  }

  predicate Holds(funct3: nat, arithmetic: bool, imm: int, x: word) {
    OpImm(funct3, arithmetic, imm, x) == Pair(imm, x)
  }

  lemma Sums(imm: int, onZero: bool, x: word, f: nat, arithmetic: bool)
    requires Legal(f, arithmetic, imm) && (f == 0 || f == 2 || f == 3)
    ensures PairMeansIt(f, imm, onZero) && (onZero ==> x == 0) ==> Holds(f, arithmetic, imm, x)
    ensures !PairMeansIt(f, imm, onZero) && x == (if onZero then 0 else Telling(f, imm)) ==> !Holds(f, arithmetic, imm, x)
  {
    hide Wrap, Pow2, OnWords, Pair;
    ImmediateWords(imm, x);
  }

  lemma Shifts(imm: int, onZero: bool, x: word, f: nat, arithmetic: bool)
    requires Legal(f, arithmetic, imm) && (f == 1 || f == 5)
    ensures PairMeansIt(f, imm, onZero) && (onZero ==> x == 0) ==> Holds(f, arithmetic, imm, x)
    ensures !PairMeansIt(f, imm, onZero) && x == (if onZero then 0 else Telling(f, imm)) ==> !Holds(f, arithmetic, imm, x)
  {
    hide Wrap, Pow2, OnWords, Pair;
    ImmediateWords(imm, x);
    ShiftLaws(x, imm % 32);
    WrapIs(0, 0);
  }

  lemma ShiftLaws(x: word, n: nat)
    ensures 0 * Pow2(n) == 0 && 0 / Pow2(n) == 0
    ensures n == 0 ==> x * Pow2(n) == x && x / Pow2(n) == x && Wrap(x) == x
  {
    WrapIs(x, 0);
    Quotient(0, Pow2(n), 0, 0);
  }

  lemma BitOps(imm: int, onZero: bool, x: word, f: nat, arithmetic: bool)
    requires Legal(f, arithmetic, imm) && (f == 4 || f == 6 || f == 7)
    ensures PairMeansIt(f, imm, onZero) && (onZero ==> x == 0) ==> Holds(f, arithmetic, imm, x)
    ensures !PairMeansIt(f, imm, onZero) && x == (if onZero then 0 else Telling(f, imm)) ==> !Holds(f, arithmetic, imm, x)
  {
    hide Wrap, Pow2, OnWords, Pair;
    ImmediateWords(imm, x);
    WordLaws(x);
    WordLaws(Wrap(imm));
  }

  /** The pair's value is the instruction's for every value of rs1, which is zero for x0, exactly when listed. */
  lemma PairMeaning(imm: int, onZero: bool, x: word, f: nat, arithmetic: bool)
    requires Legal(f, arithmetic, imm)
    ensures PairMeansIt(f, imm, onZero) && (onZero ==> x == 0) ==> Holds(f, arithmetic, imm, x)
    ensures !PairMeansIt(f, imm, onZero) && x == (if onZero then 0 else Telling(f, imm)) ==> !Holds(f, arithmetic, imm, x)
  {
    hide PairMeansIt, Holds, Telling;
    if f == 0 || f == 2 || f == 3 {
      Sums(imm, onZero, x, f, arithmetic);
    } else if f == 1 || f == 5 {
      Shifts(imm, onZero, x, f, arithmetic);
    } else {
      BitOps(imm, onZero, x, f, arithmetic);
    }
  }

  // ---------------------------------------------------------------- register-immediate words on the machine

  predicate Arithmetic(w: word) {
    ImmI(w) >= 0x400
  }

  /** A legal register-immediate word over x0..x14. */
  predicate OpImmWord(w: word) {
    Major(w) == 0x13 && GRd(w) < GUEST_REGS && Rs1(w) < GUEST_REGS && Legal(Funct3(w), Arithmetic(w), ImmI(w))
  }

  function OpImmEffect(g: Guest, w: word): Guest
    requires OpImmWord(w)
  {
    g.(x := WriteX(g.x, GRd(w), OpImm(Funct3(w), Arithmetic(w), ImmI(w), ReadX(g.x, Rs1(w)))))
  }

  /** A machine in agreement with a guest: freshly constructed, but for registers and memory. */
  function Host(g: Guest): Machine {
    var m := PowerOn(0, 0);
    m.(a := m.a.(gpr := g.x + [0], mem := g.mem))
  }

  lemma HostAgrees(g: Guest)
    ensures Agree(g, Host(g))
  {
  }

  /** The two emitted words complete and have the guest's effect. */
  predicate PairSimulates(c: Config, g: Guest, m: Machine, w: word)
    requires OpImmWord(w)
  {
    && |Emitted(w)| == 2
    && var first := Issue(c, m, Emitted(w)[0]);
      && first.Next?
      && var out := Issue(c, first.m, Emitted(w)[1]);
        out.Next? && Agree(OpImmEffect(g, w), out.m)
  }

  lemma PairSimulatesIff(c: Config, g: Guest, m: Machine, w: word)
    requires OpImmWord(w) && Agree(g, m)
    ensures PairSimulates(c, g, m, w) <==>
      GRd(w) == 0 || Holds(Funct3(w), Arithmetic(w), ImmI(w), ReadX(g.x, Rs1(w)))
  {
    hide Issue, Emitted, ImmI, GRd, Rs1, Wrap, Agree, Major, Funct3, Legal, OpImm, Arithmetic;
    PairIff(c, g, m, w, OpImm(Funct3(w), Arithmetic(w), ImmI(w), ReadX(g.x, Rs1(w))));
  }

  /** Lowering keeps the meaning of a register-immediate word in every state exactly when nothing is kept of its
      result or it is one of those listed. */
  lemma OpImmIff(c: Config, w: word)
    requires OpImmWord(w)
    ensures (forall g: Guest, m: Machine :: Agree(g, m) ==> PairSimulates(c, g, m, w)) <==>
      GRd(w) == 0 || PairMeansIt(Funct3(w), ImmI(w), Rs1(w) == 0)
  {
    hide PairSimulates, PairMeansIt, Holds, ImmI, GRd, Rs1, Funct3, Legal, Arithmetic, Agree, Major, Telling;
    var f, imm, onZero := Funct3(w), ImmI(w), Rs1(w) == 0;
    WordIsLegal(w);
    if GRd(w) == 0 || PairMeansIt(f, imm, onZero) {
      forall g: Guest, m: Machine | Agree(g, m)
        ensures PairSimulates(c, g, m, w)
      {
        PairSimulatesIff(c, g, m, w);
        PairMeaning(imm, onZero, ReadX(g.x, Rs1(w)), f, Arithmetic(w));
      }
    } else {
      var g := Guest(seq(15, _ => 0)[Rs1(w) := Telling(f, imm)], []);
      HostAgrees(g);
      PairSimulatesIff(c, g, Host(g), w);
      PairMeaning(imm, onZero, ReadX(g.x, Rs1(w)), f, Arithmetic(w));
    }
  }

  lemma WordIsLegal(w: word)
    requires OpImmWord(w)
    ensures GRd(w) < GUEST_REGS && Rs1(w) < GUEST_REGS && Legal(Funct3(w), Arithmetic(w), ImmI(w))
  {
  }

  // ---------------------------------------------------------------- loads and stores

  /** A legal load or store over x0..x14 (section 2.6): LB, LH, LW, LBU, LHU, SB, SH or SW. */
  predicate MemoryWord(w: word) {
    && Rs1(w) < GUEST_REGS
    && ((Major(w) == 0x03 && GRd(w) < GUEST_REGS && (Funct3(w) <= 2 || Funct3(w) == 4 || Funct3(w) == 5))
        || (Major(w) == 0x23 && Rs2(w) < GUEST_REGS && Funct3(w) <= 2))
  }

  /** Bytes accessed. */
  function Width(w: word): (n: nat)
    ensures 0 < n <= 4 && (MemoryWord(w) ==> (n == 4 <==> Funct3(w) == 2))
  {
    if Funct3(w) == 0 || Funct3(w) == 4 then 1 else if Funct3(w) == 1 || Funct3(w) == 5 then 2 else 4
  }

  function DataAddress(g: Guest, w: word): word
    requires MemoryWord(w)
  {
    Wrap(ReadX(g.x, Rs1(w)) + if Major(w) == 0x03 then ImmI(w) else ImmS(w))
  }

  /** The access is to plain memory, all of it. */
  predicate InMemory(g: Guest, w: word)
    requires MemoryWord(w)
  {
    Plain(DataAddress(g, w)) && DataAddress(g, w) + Width(w) <= |g.mem|
  }

  function Half(low: byte, high: byte): (r: word)
    ensures r < 0x1_0000
  {
    Word4(low, high, 0, 0)
  }

  /** LB and LH extend the sign, LBU and LHU do not. */
  function LoadedValue(w: word, mem: seq<byte>, at: nat): word
    requires at + Width(w) <= |mem|
  {
    match Funct3(w)
    case 0 => if mem[at] < 0x80 then mem[at] else 0xFFFF_FF00 + mem[at]
    case 1 => Wrap(Signed16(Half(mem[at], mem[at + 1])))
    case 4 => mem[at]
    case 5 => Half(mem[at], mem[at + 1])
    case _ => Read32(mem, at)
  }

  function MemoryEffect(g: Guest, w: word): Guest
    requires MemoryWord(w) && InMemory(g, w)
  {
    var at := DataAddress(g, w);
    if Major(w) == 0x03 then g.(x := WriteX(g.x, GRd(w), LoadedValue(w, g.mem, at)))
    else g.(mem := Splice(g.mem, at, Bytes4(ReadX(g.x, Rs2(w)))[..Width(w)]))
  }

  /** The emitted word completes and has the guest's effect. */
  predicate AccessSimulates(c: Config, g: Guest, m: Machine, w: word)
    requires MemoryWord(w) && InMemory(g, w)
  {
    |Emitted(w)| == 1
    && var out := Issue(c, m, Emitted(w)[0]);
      out.Next? && Agree(MemoryEffect(g, w), out.m)
  }

  /** Words are loaded and stored as they should be. */
  lemma FullWordSimulates(c: Config, g: Guest, m: Machine, w: word)
    requires MemoryWord(w) && InMemory(g, w) && Funct3(w) == 2 && Agree(g, m)
    ensures AccessSimulates(c, g, m, w)
  {
    hide Issue, Emitted, Agree, ImmI, ImmS, GRd, Rs1, Rs2, Wrap, Read32, Bytes4, Plain;
    if Major(w) == 0x03 {
      SimulateLw(c, g, m, w, 0);
    } else {
      SimulateSw(c, g, m, w, 0);
      assert Bytes4(ReadX(g.x, Rs2(w)))[..4] == Bytes4(ReadX(g.x, Rs2(w)));
    }
  }

  /** A guest that accesses the last bytes of its memory, all registers zero. */
  function AtTheEnd(w: word): Guest
    requires MemoryWord(w)
  {
    var at := Wrap(if Major(w) == 0x03 then ImmI(w) else ImmS(w));
    Guest(seq(15, _ => 0), seq(at + Width(w), _ => 0))
  }

  lemma EndInMemory(w: word)
    requires MemoryWord(w)
    ensures var g := AtTheEnd(w); InMemory(g, w) && |g.mem| == DataAddress(g, w) + Width(w)
  {
    ImmediateRange(w);
    hide ImmI, ImmS, Rs1, Rs2, GRd, Funct3, Major, Signed16;
    var imm := if Major(w) == 0x03 then ImmI(w) else ImmS(w);
    WrapIs(imm, if imm >= 0 then 0 else -1);
  }

  /** There the emitted word accesses four bytes, and throws. */
  lemma NarrowThrows(c: Config, g: Guest, m: Machine, w: word)
    requires MemoryWord(w) && InMemory(g, w) && Agree(g, m) && DataAddress(g, w) + 4 > |g.mem|
    ensures |Emitted(w)| == 1 && Issue(c, m, Emitted(w)[0]).Thrown?
  {
    ImmediateRange(w);
    hide IType, OpcodeOf, ImmI, ImmS, Funct3, GRd, Rs1, Rs2, Wrap, Issue;
    var raw := Emitted(w)[0];
    if Major(w) == 0x03 {
      assert raw == IType(Load, GRd(w), Rs1(w), ImmI(w) % 0x1_0000);
      ITypeFields(Load, GRd(w), Rs1(w), ImmI(w) % 0x1_0000);
    } else {
      assert raw == IType(Store, Rs2(w), Rs1(w), ImmS(w) % 0x1_0000);
      ITypeFields(Store, Rs2(w), Rs1(w), ImmS(w) % 0x1_0000);
    }
    assert Effective(m, raw) == DataAddress(g, w);
    IssueBeyond(c, m, raw, DataAddress(g, w));
  }

  lemma IssueBeyond(c: Config, m: Machine, raw: word, at: word)
    requires (Op(raw).Load? || Op(raw).Store?) && Ra(raw) < NUM_GPR && Rd(raw) < NUM_GPR
    requires Effective(m, raw) == at && Plain(at) && at + 4 > |m.a.mem|
    ensures Issue(c, m, raw).Thrown?
  {
    assert Effective(Advance(m), raw) == at;
    hide Op, Rd, Ra, Effective, TickPeripherals;
  }

  /** Lowering keeps the meaning of a load or store in every state in which the access is in memory exactly when it
      is of a whole word. */
  lemma AccessIff(c: Config, w: word)
    requires MemoryWord(w)
    ensures (forall g: Guest, m: Machine :: Agree(g, m) && InMemory(g, w) ==> AccessSimulates(c, g, m, w)) <==>
      Funct3(w) == 2
  {
    if Funct3(w) == 2 {
      forall g: Guest, m: Machine | Agree(g, m) && InMemory(g, w)
        ensures AccessSimulates(c, g, m, w)
      {
        FullWordSimulates(c, g, m, w);
      }
    } else {
      var g := AtTheEnd(w);
      EndInMemory(w);
      HostAgrees(g);
      NarrowThrows(c, g, Host(g), w);
      assert !AccessSimulates(c, g, Host(g), w);
    }
  }
}
