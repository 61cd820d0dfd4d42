/** The status flags: zero and negative describe the last result, overflow is never seen set. */
module Flags {
  import opened Words
  import opened Isa
  import opened Tensor
  import opened Tiles
  import opened Machine
  import opened Blocks

  /** The sum or difference of the signed operands does not fit into 32 bits. */
  predicate Overflows(op: Opcode, x: word, y: word) {
    var exact := if op.Add? then Signed32(x) + Signed32(y) else Signed32(x) - Signed32(y);
    !(-0x8000_0000 <= exact < 0x8000_0000)
  }

  /** The value computed is right ... */
  lemma ComputedIsOverflow(op: Opcode, x: word, y: word)
    requires op.Add? || op.Sub?
    ensures SignTest(op, x, y) <==> Overflows(op, x, y)
  {
  }

  /** ... and lost: after ADD or SUB zero and negative describe the result, and overflow tells the truth exactly
      when there was none. */
  lemma OverflowFlagIffNone(c: Config, m: Machine, raw: word)
    requires (Op(raw).Add? || Op(raw).Sub?) && Ra(raw) < NUM_GPR && Rb(raw) < NUM_GPR && Rd(raw) < NUM_GPR
    ensures Issue(c, m, raw).Next?
    ensures var x, y := ReadGpr(m.a.gpr, Ra(raw)), ReadGpr(m.a.gpr, Rb(raw));
      var result := if Op(raw).Add? then Wrap(x + y) else Wrap(x - y);
      var flags := Issue(c, m, raw).m.a.flags;
      && flags.zero == (Signed32(result) == 0) && flags.negative == (Signed32(result) < 0)
      && (flags.overflow == Overflows(Op(raw), x, y) <==> !Overflows(Op(raw), x, y))
  {
    hide Overflows, Op, Ra, Rb, Rd, Wrap, TickPeripherals, Record;
    assert Handle(c, Advance(m), raw) == ExecAlu(Advance(m), raw);
  }

  // ---------------------------------------------------------------- never seen set

  lemma HandleClears(c: Config, m: Machine, raw: word)
    requires !Op(raw).Unassigned? && !m.a.flags.overflow
    ensures !Handle(c, m, raw).m.a.flags.overflow
  {
    hide Splice, Read32, Write32, ProfileWeight, Record, VecAdded, MatmulTiled;
  }

  lemma IssueClears(c: Config, m: Machine, raw: word)
    requires !m.a.flags.overflow
    ensures !Issue(c, m, raw).m.a.flags.overflow
  {
    if !Op(raw).Unassigned? {
      HandleClears(c, Advance(m), raw);
    }
    hide Handle, TickPeripherals;
  }

  lemma StepClears(c: Config, m: Machine)
    requires !m.a.flags.overflow
    ensures !Step(c, m).m.a.flags.overflow
  {
    hide Issue, BusValue;
    var m1 := EnterInterrupt(m);
    if !m.a.halt && BusServes(m1.a.mem, m1.a.pc) {
      IssueClears(c, BusAfterRead(m1, m1.a.pc), BusValue(m1, m1.a.pc));
    }
  }

  lemma {:induction false} ReplayClears(c: Config, m: Machine, ops: seq<word>)
    requires !m.a.flags.overflow
    ensures !Replay(c, m, ops).m.a.flags.overflow
    decreases |ops|
  {
    hide Issue, EndsBlock;
    if ops != [] && !AtRest(c, m) {
      IssueClears(c, m, ops[0]);
      if Issue(c, m, ops[0]).Next? {
        ReplayClears(c, Issue(c, m, ops[0]).m, ops[1..]);
      }
    }
  }

  lemma TurnClears(c: Config, m: Machine, k: Cache)
    requires !m.a.flags.overflow
    ensures !Turn(c, m, k).1.m.a.flags.overflow
  {
    hide Step, Replay, Translate;
    StepClears(c, m);
    var found := Fetch(k, m.a.mem, m.a.pc).1;
    if found.Found? {
      ReplayClears(c, m, found.block.ops);
    }
  }

  /** Over runs of both loops, from a machine with the flag clear as the constructor and reset leave it: no
      state, whichever instructions ran, shows it set. */
  lemma {:induction false} OverflowNeverSeen(c: Config, m: Machine, k: Cache, n: nat)
    requires !m.a.flags.overflow
    ensures !Run(c, m, n).m.a.flags.overflow && !FastRun(c, m, k, n).1.m.a.flags.overflow
    decreases n
  {
    hide Step, Turn;
    if n > 0 && !AtRest(c, m) {
      StepClears(c, m);
      if Step(c, m).Next? {
        OverflowNeverSeen(c, Step(c, m).m, k, n - 1);
      }
      TurnClears(c, m, k);
      var (k1, out) := Turn(c, m, k);
      if out.Next? {
        OverflowNeverSeen(c, out.m, k1, n - 1);
      }
    }
  }
}
