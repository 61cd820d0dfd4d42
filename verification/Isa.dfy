/** The Novium instruction word: opcode space, field accessors, encoders and cycle weights. */
module Isa {
  import opened Words

  datatype Opcode =
    | Nop | Halt | Jmp | Beq | Bne
    | Add | Sub | Mul | Load | Store | Mov | Movi | LoadVr | StoreVr
    | VecAdd | MatmulTile | DmaLoad | DmaStore
    | Unassigned(code: nat)

  function OpcodeOf(code: nat): Opcode {
    match code
    case 0x00 => Nop
    case 0x01 => Halt
    case 0x02 => Jmp
    case 0x03 => Beq
    case 0x04 => Bne
    case 0x05 => Add
    case 0x06 => Sub
    case 0x07 => Mul
    case 0x08 => Load
    case 0x09 => Store
    case 0x0A => Mov
    case 0x0B => Movi
    case 0x0C => LoadVr
    case 0x0D => StoreVr
    case 0x10 => VecAdd
    case 0x11 => MatmulTile
    case 0x12 => DmaLoad
    case 0x13 => DmaStore
    case _ => Unassigned(code)
  }

  function Code(op: Opcode): nat {
    match op
    case Nop => 0x00
    case Halt => 0x01
    case Jmp => 0x02
    case Beq => 0x03
    case Bne => 0x04
    case Add => 0x05
    case Sub => 0x06
    case Mul => 0x07
    case Load => 0x08
    case Store => 0x09
    case Mov => 0x0A
    case Movi => 0x0B
    case LoadVr => 0x0C
    case StoreVr => 0x0D
    case VecAdd => 0x10
    case MatmulTile => 0x11
    case DmaLoad => 0x12
    case DmaStore => 0x13
    case Unassigned(code) => code
  }

  // ---------------------------------------------------------------- field accessors

  function OpField(raw: word): (r: nat)
    ensures r < 64
  {
    raw / 0x400_0000
  }

  function Op(raw: word): Opcode {
    OpcodeOf(OpField(raw))
  }

  function Rd(raw: word): nat { raw / 0x20_0000 % 32 }
  function Ra(raw: word): nat { raw / 0x1_0000 % 32 }
  function Rb(raw: word): nat { raw / 0x800 % 32 }
  function Func(raw: word): nat { raw % 0x800 }
  function Imm16(raw: word): nat { raw % 0x1_0000 }
  function Simm16(raw: word): int { Signed16(Imm16(raw)) }
  function Target(raw: word): nat { raw % 0x400_0000 }

  /** Control flow that ends a decoded block: HALT, JMP, BEQ and BNE have the codes 1 to 4. */
  predicate EndsBlock(raw: word) {
    1 <= OpField(raw) <= 4
  }

  lemma EndsBlockOpcodes(raw: word)
    ensures EndsBlock(raw) <==> Op(raw).Halt? || Op(raw).Jmp? || Op(raw).Beq? || Op(raw).Bne?
  {
  }

  // ---------------------------------------------------------------- encoders

  function RType(op: Opcode, rd: nat, ra: nat, rb: nat, func: nat): word
    requires Code(op) < 64
  {
    Code(op) * 0x400_0000 + rd % 32 * 0x20_0000 + ra % 32 * 0x1_0000 + rb % 32 * 0x800 + func % 0x800
  }

  function IType(op: Opcode, rd: nat, ra: nat, imm: nat): word
    requires Code(op) < 64
  {
    Code(op) * 0x400_0000 + rd % 32 * 0x20_0000 + ra % 32 * 0x1_0000 + imm % 0x1_0000
  }

  function JType(op: Opcode, addr: nat): word
    requires Code(op) < 64
  {
    Code(op) * 0x400_0000 + addr % 0x400_0000
  }

  /** Peeling fields off from the top: k is the opcode, the rest lies below. */
  lemma TopFields(k: nat, rd: nat, ra: nat, low: nat)
    requires k < 64 && rd < 32 && ra < 32 && low < 0x1_0000
    ensures var raw := k * 0x400_0000 + rd * 0x20_0000 + ra * 0x1_0000 + low;
      raw < TWO32 && raw / 0x400_0000 == k && raw / 0x20_0000 % 32 == rd && raw / 0x1_0000 % 32 == ra
      && raw % 0x1_0000 == low
  {
    var raw := k * 0x400_0000 + rd * 0x20_0000 + ra * 0x1_0000 + low;
    Quotient(raw, 0x400_0000, k, rd * 0x20_0000 + ra * 0x1_0000 + low);
    Quotient(raw, 0x20_0000, k * 32 + rd, ra * 0x1_0000 + low);
    Quotient(raw, 0x1_0000, (k * 32 + rd) * 32 + ra, low);
    Quotient(k * 32 + rd, 32, k, rd);
    Quotient((k * 32 + rd) * 32 + ra, 32, k * 32 + rd, ra);
  }

  lemma OpcodeRoundTrip(op: Opcode)
    requires !op.Unassigned?
    ensures OpcodeOf(Code(op)) == op && Code(op) < 64
  {
  }

  /** An R-type word as a sum, when every field fits. */
  lemma RTypeSum(op: Opcode, rd: nat, ra: nat, rb: nat, func: nat)
    requires Code(op) < 64 && rd < 32 && ra < 32 && rb < 32 && func < 0x800
    ensures RType(op, rd, ra, rb, func)
         == Code(op) * 0x400_0000 + rd * 0x20_0000 + ra * 0x1_0000 + (rb * 0x800 + func)
  {
    hide Code;
    Quotient(rd, 32, 0, rd);
    Quotient(ra, 32, 0, ra);
    Quotient(rb, 32, 0, rb);
    Quotient(func, 0x800, 0, func);
  }

  lemma RTypeFields(op: Opcode, rd: nat, ra: nat, rb: nat, func: nat)
    requires !op.Unassigned? && rd < 32 && ra < 32 && rb < 32 && func < 0x800
    ensures Code(op) < 64
    ensures var raw := RType(op, rd, ra, rb, func);
      Op(raw) == op && Rd(raw) == rd && Ra(raw) == ra && Rb(raw) == rb && Func(raw) == func
  {
    hide OpcodeOf, Code, RType;
    OpcodeRoundTrip(op);
    RTypeSum(op, rd, ra, rb, func);
    TopFields(Code(op), rd, ra, rb * 0x800 + func);
    LowFields(RType(op, rd, ra, rb, func), rb, func);
  }

  lemma LowFields(raw: word, rb: nat, func: nat)
    requires rb < 32 && func < 0x800 && raw % 0x1_0000 == rb * 0x800 + func
    ensures raw / 0x800 % 32 == rb && raw % 0x800 == func
  {
    var q := raw / 0x1_0000;
    assert raw == q * 0x1_0000 + rb * 0x800 + func;
    Quotient(raw, 0x800, q * 32 + rb, func);
    Quotient(q * 32 + rb, 32, q, rb);
  }

  /** An I-type word as a sum, when every field fits. */
  lemma ITypeSum(op: Opcode, rd: nat, ra: nat, imm: nat)
    requires Code(op) < 64 && rd < 32 && ra < 32 && imm < 0x1_0000
    ensures IType(op, rd, ra, imm) == Code(op) * 0x400_0000 + rd * 0x20_0000 + ra * 0x1_0000 + imm
  {
    hide Code;
    Quotient(rd, 32, 0, rd);
    Quotient(ra, 32, 0, ra);
    Quotient(imm, 0x1_0000, 0, imm);
  }

  lemma ITypeFields(op: Opcode, rd: nat, ra: nat, imm: nat)
    requires !op.Unassigned? && rd < 32 && ra < 32 && imm < 0x1_0000
    ensures Code(op) < 64
    ensures var raw := IType(op, rd, ra, imm);
      Op(raw) == op && Rd(raw) == rd && Ra(raw) == ra && Imm16(raw) == imm
  {
    hide OpcodeOf, Code, IType;
    OpcodeRoundTrip(op);
    ITypeSum(op, rd, ra, imm);
    TopFields(Code(op), rd, ra, imm);
  }

  lemma JTypeFields(op: Opcode, addr: nat)
    requires !op.Unassigned? && addr < 0x400_0000
    ensures Code(op) < 64
    ensures var raw := JType(op, addr); Op(raw) == op && Target(raw) == addr
  {
    hide OpcodeOf, Code;
    OpcodeRoundTrip(op);
    Quotient(addr, 0x400_0000, 0, addr);
    Quotient(JType(op, addr), 0x400_0000, Code(op), addr);
  }

  // ---------------------------------------------------------------- cycle weights


  /** Default cost of an opcode; only the DMA opcodes look at the func field. */
  function CycleWeight(op: Opcode, func: nat): nat {
    match op
    case Nop => 1
    case Halt => 0
    case Jmp => 2
    case Beq => 2
    case Bne => 2
    case Add => 1
    case Sub => 1
    case Mul => 3
    case Load => 3
    case Store => 3
    case Mov => 1
    case Movi => 1
    case LoadVr => 5
    case StoreVr => 5
    case VecAdd => 4
    case MatmulTile => 16
    case DmaLoad => (func + 63) / 64 + 2
    case DmaStore => (func + 63) / 64 + 2
    case Unassigned(_) => 1
  }
}
