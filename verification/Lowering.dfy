/** The RISC-V front end: lowering guest words to Novium words, one guest word to at most two. */
module Lowering {
  import opened Words
  import opened Isa

  // ---------------------------------------------------------------- RISC-V fields

  function Major(w: word): nat { w % 0x80 }
  function GRd(w: word): nat { w / 0x80 % 32 }
  function Funct3(w: word): nat { w / 0x1000 % 8 }
  function Rs1(w: word): nat { w / 0x8000 % 32 }
  function Rs2(w: word): nat { w / 0x10_0000 % 32 }
  function Funct7(w: word): nat { w / 0x200_0000 }

  /** Two's complement value of the low `bits` bits, given 2 to their number and half of it. */
  function SignExtend(x: nat, half: nat): int
    requires x < 2 * half
  {
    if x < half then x else x - 2 * half
  }

  /** I-type immediate: bits 31..20. */
  function ImmI(w: word): int {
    SignExtend(w / 0x10_0000, 0x800)
  }

  /** S-type immediate: bits 31..25 and 11..7. */
  function ImmS(w: word): int {
    SignExtend(w / 0x200_0000 * 32 + w / 0x80 % 32, 0x800)
  }

  /** B-type immediate: bits 31, 7, 30..25 and 11..8, in units of two. */
  function ImmB(w: word): int {
    SignExtend(w / 0x8000_0000 * 0x1000 + w / 0x80 % 2 * 0x800 + w / 0x200_0000 % 64 * 32 + w / 0x100 % 16 * 2, 0x1000)
  }

  /** J-type immediate: bits 31, 19..12, 20 and 30..21, in units of two. */
  function ImmJ(w: word): int {
    SignExtend(w / 0x8000_0000 * 0x10_0000 + w / 0x1000 % 256 * 0x1000 + w / 0x10_0000 % 2 * 0x800
               + w / 0x20_0000 % 1024 * 2, 0x10_0000)
  }

  // ---------------------------------------------------------------- lowering

  /** C++ integer division by four: towards zero. */
  function Quarter(x: int): int {
    if x >= 0 then x / 4 else -((-x) / 4)
  }

  datatype Lowered = Emit(words: seq<word>) | Rejected

  /** ADD, SUB, MUL, every I-type arithmetic word as ADDI, every load as LW, every store as SW, BEQ, BNE
      and JAL; registers are taken modulo sixteen and r15 is the scratch register of ADDI. */
  function LowerWord(w: word): Lowered {
    var rd, rs1, rs2 := GRd(w) % 16, Rs1(w) % 16, Rs2(w) % 16;
    match Major(w)
    case 0x33 =>
      if Funct3(w) == 0 && Funct7(w) == 0x00 then Emit([RType(Add, rd, rs1, rs2, 0)])
      else if Funct3(w) == 0 && Funct7(w) == 0x20 then Emit([RType(Sub, rd, rs1, rs2, 0)])
      else if Funct3(w) == 0 && Funct7(w) == 0x01 then Emit([RType(Mul, rd, rs1, rs2, 0)])
      else Rejected
    case 0x13 => Emit([IType(Movi, 15, 0, ImmI(w) % 0x1_0000), RType(Add, rd, rs1, 15, 0)])
    case 0x03 => Emit([IType(Load, rd, rs1, ImmI(w) % 0x1_0000)])
    case 0x23 => Emit([IType(Store, rs2, rs1, ImmS(w) % 0x1_0000)])
    case 0x63 =>
      var off := Quarter(ImmB(w) - 4) % 0x1_0000;
      if Funct3(w) == 0 then Emit([IType(Beq, rs1, rs2, off)])
      else if Funct3(w) == 1 then Emit([IType(Bne, rs1, rs2, off)])
      else Rejected
    case 0x6F => Emit([JType(Jmp, ImmJ(w) % 0x400_0000)])
    case _ => Rejected
  }

  /** What one guest word contributes to the output: a NOP if it is not understood. */
  function Emitted(w: word): seq<word> {
    match LowerWord(w)
    case Emit(words) => words
    case Rejected => [IType(Nop, 0, 0, 0)]
  }

  function LowerAll(prog: seq<word>): seq<word> {
    if prog == [] then [] else LowerAll(prog[..|prog| - 1]) + Emitted(prog[|prog| - 1])
  }

  // ---------------------------------------------------------------- the engine's loop

  datatype Stats = Stats(decoded: nat, emitted: nat)

  function StatsOf(prog: seq<word>): Stats {
    if prog == [] then Stats(0, 0)
    else
      var s := StatsOf(prog[..|prog| - 1]);
      match LowerWord(prog[|prog| - 1])
      case Emit(words) => Stats(s.decoded + 1, s.emitted + |words|)
      case Rejected => s
  }

  /** The whole words of a byte string; up to three trailing bytes are ignored. */
  function GuestWords(data: seq<byte>): seq<word> {
    seq(|data| / 4, i requires 0 <= i < |data| / 4 => Read32(data, 4 * i))
  }

  method TranslateBytes(data: seq<byte>) returns (out: seq<word>, stats: Stats)
    ensures out == LowerAll(GuestWords(data)) && stats == StatsOf(GuestWords(data))
  {
    hide LowerWord, Read32;
    out, stats := [], Stats(0, 0);
    var off: nat := 0;
    while off + 4 <= |data|
      invariant off % 4 == 0 && off <= |data|
      invariant out == LowerAll(GuestWords(data)[..off / 4]) && stats == StatsOf(GuestWords(data)[..off / 4])
    {
      var w := Read32(data, off);
      ghost var done, k := GuestWords(data)[..off / 4 + 1], off / 4;
      assert done[k] == w && done[..k] == GuestWords(data)[..k];
      match LowerWord(w) {
        case Emit(words) =>
          out := out + words;
          stats := Stats(stats.decoded + 1, stats.emitted + |words|);
        case Rejected =>
          out := out + [IType(Nop, 0, 0, 0)];
      }
      off := off + 4;
      assert off / 4 == k + 1;
    }
    assert GuestWords(data)[..off / 4] == GuestWords(data);
  }
}
