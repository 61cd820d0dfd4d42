/** The decoded-block cache and the fast run loop that replays its blocks. */
module Blocks {
  import opened Words
  import opened Isa
  import opened Machine

  const MAX_LEN: nat := 32

  datatype Block = Block(start: word, end: word, ops: seq<word>, endsWithBranch: bool, endsWithHalt: bool)

  datatype Decoded = Ops(ops: seq<word>, end: word) | OutOfRange

  // ---------------------------------------------------------------- decoding

  /** Decode from `cur` until control flow, a line boundary or `left` words; reads may run out of memory. */
  function Decode(mem: seq<byte>, cur: word, left: nat): Decoded
    decreases left
  {
    if left == 0 then Ops([], cur)
    else if cur + 4 > |mem| then OutOfRange
    else
      var raw, next := Read32(mem, cur), Wrap(cur + 4);
      if EndsBlock(raw) || next % 64 == 0 then Ops([raw], next)
      else match Decode(mem, next, left - 1)
        case OutOfRange => OutOfRange
        case Ops(ops, end) => Ops([raw] + ops, end)
  }

  datatype Lookup = Found(block: Block) | ReadFault

  function Translate(mem: seq<byte>, pc: word): Lookup {
    match Decode(mem, pc, MAX_LEN)
    case OutOfRange => ReadFault
    case Ops(ops, end) =>
      var last := if ops == [] then Nop else Op(ops[|ops| - 1]);
      Found(Block(pc, end, ops, last.Jmp? || last.Beq? || last.Bne?, last.Halt?))
  }

  // ---------------------------------------------------------------- the cache

  datatype Cache = Cache(blocks: map<word, Block>, hits: nat, misses: nat)

  const EMPTY := Cache(map[], 0, 0)

  /** Cached blocks are returned as they are; others are decoded and kept. */
  function Fetch(k: Cache, mem: seq<byte>, pc: word): (Cache, Lookup) {
    if pc in k.blocks then (k.(hits := k.hits + 1), Found(k.blocks[pc]))
    else
      var k1 := k.(misses := k.misses + 1);
      match Translate(mem, pc)
      case ReadFault => (k1, ReadFault)
      case Found(b) => (k1.(blocks := k1.blocks[pc := b]), Found(b))
  }

  // ---------------------------------------------------------------- replay

  /** Execute the words of a block one after the other: no fetch, no interrupt check. */
  function Replay(c: Config, m: Machine, ops: seq<word>): Outcome
    decreases ops
  {
    if ops == [] || AtRest(c, m) then Next(m)
    else match Issue(c, m, ops[0])
      case Thrown(m1, fault) => Thrown(m1, fault)
      case Next(m1) => if EndsBlock(ops[0]) then Next(m1) else Replay(c, m1, ops[1..])
  }

  /** One turn of the fast loop. */
  function Turn(c: Config, m: Machine, k: Cache): (Cache, Outcome) {
    if c.verbose then (k, Step(c, m))
    else
      var (k1, found) := Fetch(k, m.a.mem, m.a.pc);
      match found
      case ReadFault => (k1, Thrown(m, AccessOutOfBounds))
      case Found(b) => (k1, Replay(c, m, b.ops))
  }

  /** The fast loop, cut off after at most n turns. */
  function FastRun(c: Config, m: Machine, k: Cache, n: nat): (Cache, Exit)
    decreases n
  {
    if AtRest(c, m) then (k, Stopped(m))
    else if n == 0 then (k, Running(m))
    else
      var (k1, out) := Turn(c, m, k);
      match out
      case Thrown(m1, fault) => (k1, Threw(m1, fault))
      case Next(m1) => FastRun(c, m1, k1, n - 1)
  }
}
