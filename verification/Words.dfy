/** Machine words, little-endian byte storage and the wrap-around arithmetic of the core. */
module Words {

  const TWO32: int := 0x1_0000_0000

  type byte = x: int | 0 <= x < 0x100
  type word = x: int | 0 <= x < 0x1_0000_0000

  /** Truncation of an integer to an unsigned 32-bit word. */
  function Wrap(x: int): word {
    x % 0x1_0000_0000
  }

  // ---------------------------------------------------------------- quotients

  /** Multiples of d other than zero are at least d away from it. */
  lemma TooFar(k: int, d: nat)
    ensures k >= 1 ==> k * d >= d
    ensures k * d == -((-k) * d)
  {
    if k >= 1 {
      assert k * d == (k - 1) * d + d;
    }
  }

  /** Quotient and remainder are what they are named to be. */
  lemma Quotient(x: int, d: nat, q: int, r: nat)
    requires d > 0 && r < d && q * d + r == x
    ensures q == x / d && r == x % d
  {
    var q', r' := x / d, x % d;
    assert x == q' * d + r';
    assert (q' - q) * d == r - r';
    TooFar(q' - q, d);
    TooFar(q - q', d);
  }

  lemma WrapIs(x: int, q: int)
    requires 0 <= x - q * 0x1_0000_0000 < 0x1_0000_0000
    ensures Wrap(x) == x - q * 0x1_0000_0000
  {
  }

  /** Wrapping once is enough. */
  lemma WrapAdd(x: int, y: int)
    ensures Wrap(Wrap(x) + y) == Wrap(x + y)
  {
    var p, q := x / 0x1_0000_0000, (x + y) / 0x1_0000_0000;
    assert Wrap(x) == x - p * 0x1_0000_0000;
    WrapIs(x + y, q);
    WrapIs(Wrap(x) + y, q - p);
  }

  /** A shift by less than 2^32 shows. */
  lemma WrapShift(x: int, d: int)
    requires -0x1_0000_0000 < d < 0x1_0000_0000
    ensures Wrap(x) == Wrap(x + d) <==> d == 0
  {
    var p, q := x / 0x1_0000_0000, (x + d) / 0x1_0000_0000;
    WrapIs(x, p);
    WrapIs(x + d, q);
  }

  /** The int16_t view of a 16-bit field. */
  function Signed16(x: int): int
    requires 0 <= x < 0x1_0000
  {
    if x < 0x8000 then x else x - 0x1_0000
  }

  // ---------------------------------------------------------------- byte stores

  /** The bytes of `mem` with those from `at` on replaced by `bytes`. */
  function Splice(mem: seq<byte>, at: nat, bytes: seq<byte>): (r: seq<byte>)
    requires at + |bytes| <= |mem|
    ensures |r| == |mem|
    ensures forall k :: at <= k < at + |bytes| ==> r[k] == bytes[k - at]
    ensures forall k :: 0 <= k < at || at + |bytes| <= k < |mem| ==> r[k] == mem[k]
  {
    mem[..at] + bytes + mem[at + |bytes|..]
  }

  function Bytes4(v: word): (r: seq<byte>)
    ensures |r| == 4
  {
    [v % 0x100, v / 0x100 % 0x100, v / 0x1_0000 % 0x100, v / 0x100_0000]
  }

  function Word4(b0: byte, b1: byte, b2: byte, b3: byte): word {
    b0 + 0x100 * b1 + 0x1_0000 * b2 + 0x100_0000 * b3
  }

  function Read32(mem: seq<byte>, at: nat): word
    requires at + 4 <= |mem|
  {
    Word4(mem[at], mem[at + 1], mem[at + 2], mem[at + 3])
  }

  function Write32(mem: seq<byte>, at: nat, v: word): (r: seq<byte>)
    requires at + 4 <= |mem|
    ensures |r| == |mem|
    ensures forall k :: 0 <= k < at || at + 4 <= k < |mem| ==> r[k] == mem[k]
  {
    Splice(mem, at, Bytes4(v))
  }

  lemma Word4Bytes4(v: word)
    ensures Word4(Bytes4(v)[0], Bytes4(v)[1], Bytes4(v)[2], Bytes4(v)[3]) == v
  {
    var q1 := v / 0x100;
    var q2 := q1 / 0x100;
    assert v / 0x1_0000 == q2 && v / 0x100_0000 == q2 / 0x100;
    assert v == v % 0x100 + 0x100 * q1 && q1 == q1 % 0x100 + 0x100 * q2 && q2 == q2 % 0x100 + 0x100 * (q2 / 0x100);
  }

  /** A word read where it was just written is the word written. */
  lemma ReadOverWrite(mem: seq<byte>, at: nat, v: word)
    requires at + 4 <= |mem|
    ensures Read32(Write32(mem, at, v), at) == v
  {
    Word4Bytes4(v);
    var r := Write32(mem, at, v);
    assert r[at + 0] == Bytes4(v)[0] && r[at + 1] == Bytes4(v)[1];
    assert r[at + 2] == Bytes4(v)[2] && r[at + 3] == Bytes4(v)[3];
  }

  /** A read depends only on the four bytes it covers. */
  lemma ReadFrame(mem: seq<byte>, mem': seq<byte>, at: nat)
    requires at + 4 <= |mem| && |mem| == |mem'|
    requires forall k :: at <= k < at + 4 ==> mem'[k] == mem[k]
    ensures Read32(mem', at) == Read32(mem, at)
  {
    assert mem'[at] == mem[at] && mem'[at + 1] == mem[at + 1];
    assert mem'[at + 2] == mem[at + 2] && mem'[at + 3] == mem[at + 3];
  }
}
