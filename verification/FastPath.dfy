/** Replaying cached blocks refines interpreting: the fast loop ends exactly where the plain loop
    ends, errors included, along every run whose steps meet the guards stated here. */
module FastPath {
  import opened Words
  import opened Isa
  import opened Machine
  import opened Blocks
  import opened StepFacts

  // ---------------------------------------------------------------- decoding one line

  /** `mem'` agrees with `mem` on every 64-byte line in `lines`. */
  ghost predicate Stable(mem: seq<byte>, mem': seq<byte>, lines: set<int>) {
    |mem'| == |mem| && forall a :: 0 <= a < |mem| && a / 64 in lines ==> mem'[a] == mem[a]
  }

  /** The first address past the line that holds `pc`. */
  function LineEnd(pc: nat): nat {
    pc / 64 * 64 + 64
  }

  /** Aligned addresses and the line they are in. */
  lemma LineFacts(pc: nat)
    requires pc % 4 == 0
    ensures pc + 4 <= LineEnd(pc) <= pc + 64 && LineEnd(pc) % 64 == 0
    ensures pc < TWO32 ==> LineEnd(pc) <= TWO32
    ensures (pc + 4) % 4 == 0 && ((pc + 4) % 64 == 0 <==> pc + 4 == LineEnd(pc))
    ensures pc + 4 != LineEnd(pc) ==> LineEnd(pc + 4) == LineEnd(pc) && (pc + 4) / 64 == pc / 64
  {
    var l, t, q := pc / 64, pc % 64, pc / 4;
    assert pc == 64 * l + t && pc == 4 * q && LineEnd(pc) == 64 * l + 64;
    Quotient(t, 4, q - 16 * l, 0);
    Quotient(pc + 4, 4, q + 1, 0);
    Quotient(64 * l + 64, 64, l + 1, 0);
    if t + 4 < 64 {
      Quotient(pc + 4, 64, l, t + 4);
    } else {
      Quotient(pc + 4, 64, l + 1, 0);
    }
  }

  /** Decoding goes on in the line unless the next word starts another. */
  lemma NextInLine(cur: word)
    requires cur % 4 == 0
    ensures Wrap(cur + 4) % 64 == 0 <==> cur + 4 == LineEnd(cur)
    ensures cur + 4 != LineEnd(cur) ==> cur + 4 < TWO32 && Wrap(cur + 4) == cur + 4
  {
    hide LineEnd;
    LineFacts(cur);
    if cur + 4 < TWO32 {
      WrapIs(cur + 4, 0);
    } else {
      WrapIs(cur + 4, 1);
    }
  }

  /** All four bytes at `at` are in `lines`. */
  ghost predicate WordIn(at: nat, lines: set<int>) {
    forall k :: at <= k < at + 4 ==> k / 64 in lines
  }

  /** A word in stable lines is what it was. */
  lemma StableWord(mem: seq<byte>, mem': seq<byte>, at: nat, lines: set<int>)
    requires Stable(mem, mem', lines) && WordIn(at, lines) && at + 4 <= |mem|
    ensures |mem'| == |mem| && Read32(mem', at) == Read32(mem, at)
  {
    hide Read32;
    ReadFrame(mem, mem', at);
  }

  lemma StableSize(mem: seq<byte>, mem': seq<byte>, lines: set<int>)
    requires Stable(mem, mem', lines)
    ensures |mem'| == |mem|
  {
  }

  /** Every word that decoding at most `left` words from `cur` could look at is in `lines`. */
  ghost predicate LinesAhead(cur: word, left: nat, lines: set<int>)
    decreases left
  {
    left == 0 || (WordIn(cur, lines) && (Wrap(cur + 4) % 64 == 0 || LinesAhead(Wrap(cur + 4), left - 1, lines)))
  }

  /** From an aligned address that is its own line. */
  lemma {:induction false} AlignedAhead(cur: word, left: nat, lines: set<int>)
    requires cur % 4 == 0 && cur / 64 in lines
    ensures LinesAhead(cur, left, lines)
    decreases left
  {
    AlignedWordIn(cur, lines);
    hide WordIn, LineEnd, Wrap;
    NextInLine(cur);
    LineFacts(cur);
    if left > 0 && cur + 4 != LineEnd(cur) {
      AlignedAhead(cur + 4, left - 1, lines);
    }
  }

  lemma AlignedWordIn(cur: nat, lines: set<int>)
    requires cur % 4 == 0 && cur / 64 in lines
    ensures WordIn(cur, lines)
  {
    var l := cur / 64;
    LineFacts(cur);
    assert 64 * l <= cur && LineEnd(cur) == 64 * l + 64;
    forall k | cur <= k < cur + 4
      ensures k / 64 == l
    {
      Quotient(k, 64, l, k - 64 * l);
    }
  }

  /** Decoding sees nothing but the words ahead. */
  lemma {:induction false} DecodeStable(mem: seq<byte>, mem': seq<byte>, cur: word, left: nat, lines: set<int>)
    requires Stable(mem, mem', lines) && LinesAhead(cur, left, lines)
    ensures Decode(mem', cur, left) == Decode(mem, cur, left)
    decreases left
  {
    hide Read32, EndsBlock, Stable, Wrap, WordIn;
    StableSize(mem, mem', lines);
    if left > 0 && cur + 4 <= |mem| {
      StableWord(mem, mem', cur, lines);
      if !EndsBlock(Read32(mem, cur)) && Wrap(cur + 4) % 64 != 0 {
        DecodeStable(mem, mem', Wrap(cur + 4), left - 1, lines);
      }
    }
  }

  /** Look-ahead is safe inside a line that is memory to its end. */
  lemma {:induction false} DecodeTotal(mem: seq<byte>, cur: word, left: nat)
    requires cur % 4 == 0 && LineEnd(cur) <= |mem|
    ensures Decode(mem, cur, left).Ops?
    decreases left
  {
    hide Read32, EndsBlock, Wrap, LineEnd;
    NextInLine(cur);
    LineFacts(cur);
    if left > 0 && !EndsBlock(Read32(mem, cur)) && cur + 4 != LineEnd(cur) {
      DecodeTotal(mem, cur + 4, left - 1);
    }
  }

  // ---------------------------------------------------------------- blocks

  /** `ops` are words of memory in `lines`, one after the other from pc on, with no control flow and no line
      boundary before the last. */
  ghost predicate Runs(mem: seq<byte>, pc: word, ops: seq<word>, lines: set<int>)
    decreases |ops|
  {
    ops == []
    || (pc + 4 <= |mem| && ops[0] == Read32(mem, pc) && WordIn(pc, lines)
        && (|ops| > 1 ==> !EndsBlock(ops[0]) && Wrap(pc + 4) % 64 != 0 && Runs(mem, Wrap(pc + 4), ops[1..], lines)))
  }

  /** What decoding yields is such a run of words. */
  lemma {:induction false} DecodeRuns(mem: seq<byte>, cur: word, left: nat, lines: set<int>)
    requires Decode(mem, cur, left).Ops? && LinesAhead(cur, left, lines)
    ensures var ops := Decode(mem, cur, left).ops; Runs(mem, cur, ops, lines) && (left > 0 ==> ops != [])
    decreases left
  {
    hide Read32, EndsBlock, Wrap, WordIn;
    if left > 0 {
      DecodeUnfold(mem, cur, left);
      if !EndsBlock(Read32(mem, cur)) && Wrap(cur + 4) % 64 != 0 {
        DecodeRuns(mem, Wrap(cur + 4), left - 1, lines);
        var rest := Decode(mem, Wrap(cur + 4), left - 1).ops;
        assert ([Read32(mem, cur)] + rest)[1..] == rest;
      }
    }
  }

  /** Words in stable lines go on being one. */
  lemma {:induction false} RunsStable(mem: seq<byte>, mem': seq<byte>, pc: word, ops: seq<word>, lines: set<int>)
    requires Runs(mem, pc, ops, lines) && Stable(mem, mem', lines)
    ensures Runs(mem', pc, ops, lines)
    decreases |ops|
  {
    hide Read32, EndsBlock, Wrap, WordIn, Stable;
    StableSize(mem, mem', lines);
    if ops != [] {
      StableWord(mem, mem', pc, lines);
      if |ops| > 1 {
        RunsStable(mem, mem', Wrap(pc + 4), ops[1..], lines);
      }
    }
  }

  /** `ops` are the words of memory from pc on, inside one line, with control flow only at the end. */
  ghost predicate CodeAt(mem: seq<byte>, pc: word, ops: seq<word>) {
    && pc % 4 == 0 && pc + 4 * |ops| <= LineEnd(pc)
    && (forall i :: 0 <= i < |ops| ==> pc + 4 * i + 4 <= |mem| && ops[i] == Read32(mem, pc + 4 * i))
    && (forall i :: 0 <= i < |ops| - 1 ==> !EndsBlock(ops[i]))
  }

  /** How decoding goes on after its first word. */
  lemma DecodeUnfold(mem: seq<byte>, cur: word, left: nat)
    requires Decode(mem, cur, left).Ops? && left > 0
    ensures cur + 4 <= |mem|
    ensures EndsBlock(Read32(mem, cur)) || Wrap(cur + 4) % 64 == 0 ==>
      Decode(mem, cur, left) == Ops([Read32(mem, cur)], Wrap(cur + 4))
    ensures !EndsBlock(Read32(mem, cur)) && Wrap(cur + 4) % 64 != 0 ==>
      var rest := Decode(mem, Wrap(cur + 4), left - 1);
      rest.Ops? && Decode(mem, cur, left) == Ops([Read32(mem, cur)] + rest.ops, rest.end)
  {
    hide Read32, EndsBlock, Wrap;
  }

  lemma CodeAtShort(mem: seq<byte>, pc: word)
    requires pc % 4 == 0
    ensures CodeAt(mem, pc, [])
    ensures pc + 4 <= |mem| ==> CodeAt(mem, pc, [Read32(mem, pc)])
  {
    hide Read32, EndsBlock, LineEnd;
    LineFacts(pc);
  }

  lemma CodeAtCons(mem: seq<byte>, pc: word, ops: seq<word>)
    requires pc % 4 == 0 && pc + 4 <= |mem| && pc + 4 < TWO32 && pc + 4 != LineEnd(pc) && !EndsBlock(Read32(mem, pc))
    requires CodeAt(mem, pc + 4, ops)
    ensures CodeAt(mem, pc, [Read32(mem, pc)] + ops)
  {
    hide Read32, EndsBlock, LineEnd;
    LineFacts(pc);
    var all := [Read32(mem, pc)] + ops;
    forall i | 0 <= i < |all|
      ensures pc + 4 * i + 4 <= |mem| && all[i] == Read32(mem, pc + 4 * i)
    {
      if i > 0 {
        assert ops[i - 1] == Read32(mem, pc + 4 + 4 * (i - 1));
      }
    }
    forall i | 0 <= i < |all| - 1
      ensures !EndsBlock(all[i])
    {
      if i > 0 {
        assert all[i] == ops[i - 1];
      }
    }
  }

  /** What decoding an aligned address yields: the words of memory in order, control flow only at the
      end, never past the line ... */
  lemma {:induction false} DecodeShape(mem: seq<byte>, cur: word, left: nat)
    requires Decode(mem, cur, left).Ops? && cur % 4 == 0
    ensures var d := Decode(mem, cur, left);
      CodeAt(mem, cur, d.ops) && |d.ops| <= left && d.end == Wrap(cur + 4 * |d.ops|)
    decreases left
  {
    hide Read32, EndsBlock, CodeAt, LineEnd, Wrap;
    CodeAtShort(mem, cur);
    if left > 0 {
      DecodeUnfold(mem, cur, left);
      NextInLine(cur);
      LineFacts(cur);
      hide Decode;
      if !EndsBlock(Read32(mem, cur)) && cur + 4 != LineEnd(cur) {
        DecodeShape(mem, cur + 4, left - 1);
        var rest := Decode(mem, cur + 4, left - 1);
        CodeAtCons(mem, cur, rest.ops);
        assert cur + 4 * (1 + |rest.ops|) == cur + 4 + 4 * |rest.ops|;
      }
    } else {
      WrapIs(cur, 0);
    }
  }

  /** ... and, unless `left` ran out first, stopped by control flow or by the line boundary. */
  lemma {:induction false} DecodeStop(mem: seq<byte>, cur: word, left: nat)
    requires Decode(mem, cur, left).Ops? && cur % 4 == 0
    requires left > 0 && cur + 4 * left >= LineEnd(cur)
    ensures var d := Decode(mem, cur, left);
      d.ops != [] && (EndsBlock(d.ops[|d.ops| - 1]) || d.end % 64 == 0)
    decreases left
  {
    hide Read32, EndsBlock, LineEnd, Wrap;
    DecodeUnfold(mem, cur, left);
    NextInLine(cur);
    LineFacts(cur);
    hide Decode;
    if !EndsBlock(Read32(mem, cur)) && cur + 4 != LineEnd(cur) {
      DecodeStop(mem, cur + 4, left - 1);
      var d, rest := Decode(mem, cur, left), Decode(mem, cur + 4, left - 1);
      assert d.ops[|d.ops| - 1] == rest.ops[|rest.ops| - 1];
    }
  }

  lemma CodeAtRoom(mem: seq<byte>, pc: word, ops: seq<word>)
    requires CodeAt(mem, pc, ops)
    ensures pc + 4 * |ops| <= LineEnd(pc)
  {
    hide Read32, EndsBlock, LineEnd;
  }

  /** What a cached block is: at most sixteen words of one line between its start and end, ending
      with control flow or at the line boundary, and flagged accordingly. */
  lemma BlockShape(mem: seq<byte>, pc: word)
    requires Translate(mem, pc).Found? && pc % 4 == 0
    ensures var b := Translate(mem, pc).block;
      && CodeAt(mem, pc, b.ops) && 0 < |b.ops| <= 16
      && b.start == pc && b.end == Wrap(pc + 4 * |b.ops|)
      && (b.endsWithBranch || b.endsWithHalt <==> EndsBlock(b.ops[|b.ops| - 1]))
      && (!EndsBlock(b.ops[|b.ops| - 1]) ==> b.end % 64 == 0)
  {
    hide Read32, EndsBlock, Decode, LineEnd, Wrap, CodeAt;
    LineFacts(pc);
    DecodeShape(mem, pc, MAX_LEN);
    DecodeStop(mem, pc, MAX_LEN);
    CodeAtRoom(mem, pc, Translate(mem, pc).block.ops);
    var b := Translate(mem, pc).block;
    EndsBlockOpcodes(b.ops[|b.ops| - 1]);
  }

  // ---------------------------------------------------------------- coherence

  /** Every cached block with nothing but code lines ahead is what decoding memory there gives now. */
  ghost predicate Coherent(k: Cache, mem: seq<byte>, lines: set<int>) {
    forall pc :: pc in k.blocks && LinesAhead(pc, MAX_LEN, lines) ==> Translate(mem, pc) == Found(k.blocks[pc])
  }

  lemma CoherentStable(k: Cache, mem: seq<byte>, mem': seq<byte>, lines: set<int>)
    requires Coherent(k, mem, lines) && Stable(mem, mem', lines)
    ensures Coherent(k, mem', lines)
  {
    hide LinesAhead, Stable, Decode;
    forall pc | pc in k.blocks && LinesAhead(pc, MAX_LEN, lines)
      ensures Translate(mem', pc) == Found(k.blocks[pc])
    {
      DecodeStable(mem, mem', pc, MAX_LEN, lines);
    }
  }

  lemma FetchCoherent(k: Cache, mem: seq<byte>, pc: word, lines: set<int>)
    requires Coherent(k, mem, lines) && LinesAhead(pc, MAX_LEN, lines)
    ensures Coherent(Fetch(k, mem, pc).0, mem, lines)
    ensures Fetch(k, mem, pc).1 == Translate(mem, pc)
  {
    hide LinesAhead, Translate;
  }

  // ---------------------------------------------------------------- the discipline

  /** An illegal word with a trap vector set moves pc without ending its block, so it must be the last word of
      its line, or the vector must be where the replay goes on or stops anyway. */
  predicate TrapSafe(c: Config, csr: Csr, pc: word, raw: word) {
    || csr.mtvec == 0 || !Op(raw).Unassigned?
    || Wrap(pc + 4) % 64 == 0 || VectorBase(csr) == Wrap(pc + 4) || VectorBase(csr) in c.breakpoints
  }

  /** What the fast loop does not look at makes no difference to the next step: no interrupt is due, pc is in no
      device window, decoding ahead stays in memory and sees code lines only, a trap does not leave the block in
      the middle, and the code lines stay as they are. */
  ghost predicate StepSafe(c: Config, m: Machine, lines: set<int>) {
    && PendingInterrupt(m).NoInterrupt? && !InTimer(m.a.pc) && !InUart(m.a.pc)
    && LinesAhead(m.a.pc, MAX_LEN, lines)
    && (m.a.pc + 4 <= |m.a.mem| ==>
          Translate(m.a.mem, m.a.pc).Found? && TrapSafe(c, m.a.csr, m.a.pc, Read32(m.a.mem, m.a.pc)))
    && (Step(c, m).Next? ==> Stable(m.a.mem, Step(c, m).m.a.mem, lines))
  }

  /** Every step the interpreter takes from m is safe. */
  ghost predicate Disciplined(c: Config, m: Machine, lines: set<int>) {
    forall n: nat :: Run(c, m, n).Running? ==> StepSafe(c, Run(c, m, n).m, lines)
  }

  lemma DisciplinedStep(c: Config, m: Machine, lines: set<int>)
    requires Disciplined(c, m, lines) && !AtRest(c, m)
    ensures StepSafe(c, m, lines) && Stable(m.a.mem, Step(c, m).m.a.mem, lines)
    ensures Step(c, m).Next? ==> Disciplined(c, Step(c, m).m, lines)
  {
    if Step(c, m).Thrown? {
      ThrownKeepsMem(c, m);
    }
    hide Step;
    var zero: nat := 0;
    assert Run(c, m, zero) == Running(m);
    if Step(c, m).Next? {
      var m1 := Step(c, m).m;
      forall n: nat | Run(c, m1, n).Running?
        ensures StepSafe(c, Run(c, m1, n).m, lines)
      {
        assert Run(c, m, n + 1) == Run(c, m1, n);
      }
    }
  }

  // ---------------------------------------------------------------- one turn of the fast loop

  /** With no interrupt due and pc in plain memory, a step is the issue of the word at pc. */
  lemma StepIsIssue(c: Config, m: Machine)
    requires PendingInterrupt(m).NoInterrupt? && !m.a.halt
    requires !InTimer(m.a.pc) && !InUart(m.a.pc) && m.a.pc + 4 <= |m.a.mem|
    ensures Step(c, m) == Issue(c, m, Read32(m.a.mem, m.a.pc))
  {
  }

  /** The exit a run reports when it has reached m and may not step further. */
  function Settle(c: Config, m: Machine): Exit {
    if AtRest(c, m) then Stopped(m) else Running(m)
  }

  function ExitOf(c: Config, out: Outcome): Exit {
    match out
    case Next(m) => Settle(c, m)
    case Thrown(m, fault) => Threw(m, fault)
  }

  /** A safe step from the start of a block is the issue of its first word, and leaves the rest of the block, if
      it is to be replayed, at the new pc. */
  lemma StepOfBlock(c: Config, m: Machine, ops: seq<word>, lines: set<int>)
    requires StepSafe(c, m, lines) && !AtRest(c, m) && ops != [] && Runs(m.a.mem, m.a.pc, ops, lines)
    ensures Step(c, m) == Issue(c, m, ops[0])
    ensures Step(c, m).Next? ==> Stable(m.a.mem, Step(c, m).m.a.mem, lines)
    ensures Step(c, m).Next? && |ops| > 1 && !AtRest(c, Step(c, m).m) ==>
      Runs(Step(c, m).m.a.mem, Step(c, m).m.a.pc, ops[1..], lines)
  {
    hide Step, Issue, Read32, EndsBlock, Stable, Translate, VectorBase, Wrap, Op, LinesAhead, WordIn;
    StepIsIssue(c, m);
    if Step(c, m).Next? && |ops| > 1 {
      IssueFrame(c, m, ops[0]);
      RunsStable(m.a.mem, Step(c, m).m.a.mem, Wrap(m.a.pc + 4), ops[1..], lines);
    }
  }

  /** Replaying the words found at pc is a run of as many steps as words were executed. */
  lemma {:induction false} ReplayIsRun(c: Config, m: Machine, ops: seq<word>, lines: set<int>) returns (steps: nat)
    requires Disciplined(c, m, lines) && !AtRest(c, m) && ops != [] && Runs(m.a.mem, m.a.pc, ops, lines)
    ensures 0 < steps <= |ops|
    ensures Run(c, m, steps) == ExitOf(c, Replay(c, m, ops))
    ensures Stable(m.a.mem, Replay(c, m, ops).m.a.mem, lines)
    ensures Replay(c, m, ops).Next? ==> Disciplined(c, Replay(c, m, ops).m, lines)
    decreases |ops|
  {
    hide Step, Issue, EndsBlock, Runs, Stable, Disciplined, StepSafe, AtRest;
    DisciplinedStep(c, m, lines);
    StepOfBlock(c, m, ops, lines);
    RunOne(c, m);
    steps := 1;
    if Step(c, m).Next? {
      var m1 := Step(c, m).m;
      if !EndsBlock(ops[0]) && ops[1..] != [] && !AtRest(c, m1) {
        var more := ReplayIsRun(c, m1, ops[1..], lines);
        steps := more + 1;
        StableTrans(m, m1, Replay(c, m1, ops[1..]), lines);
      }
    }
  }

  lemma RunOne(c: Config, m: Machine)
    requires !AtRest(c, m)
    ensures Run(c, m, 1) == ExitOf(c, Step(c, m))
  {
  }

  lemma StableTrans(m: Machine, m1: Machine, out: Outcome, lines: set<int>)
    requires Stable(m.a.mem, m1.a.mem, lines)
    ensures Stable(m1.a.mem, out.m.a.mem, lines) ==> Stable(m.a.mem, out.m.a.mem, lines)
  {
  }

  /** A successful fetch of the fast loop finds the words that follow pc, where there are any. */
  lemma TranslateRuns(mem: seq<byte>, pc: word, lines: set<int>)
    requires LinesAhead(pc, MAX_LEN, lines)
    ensures pc + 4 > |mem| ==> Translate(mem, pc).ReadFault?
    ensures Translate(mem, pc).Found? ==>
      var ops := Translate(mem, pc).block.ops; ops != [] && Runs(mem, pc, ops, lines)
  {
    hide Read32, EndsBlock, LinesAhead, Runs, Wrap;
    if Decode(mem, pc, MAX_LEN).Ops? {
      DecodeRuns(mem, pc, MAX_LEN, lines);
    }
  }

  /** One turn of the fast loop is a run of at least one step, and leaves a coherent cache. */
  lemma TurnIsRun(c: Config, m: Machine, k: Cache, lines: set<int>) returns (steps: nat)
    requires Disciplined(c, m, lines) && !AtRest(c, m) && Coherent(k, m.a.mem, lines)
    ensures steps > 0 && Run(c, m, steps) == ExitOf(c, Turn(c, m, k).1)
    ensures Coherent(Turn(c, m, k).0, Turn(c, m, k).1.m.a.mem, lines)
    ensures Turn(c, m, k).1.Next? ==> Disciplined(c, Turn(c, m, k).1.m, lines)
  {
    hide Issue, Decode, Translate, LinesAhead, Runs, Disciplined, Coherent, Stable;
    DisciplinedStep(c, m, lines);
    steps := 1;
    if c.verbose {
      hide Step;
      RunOne(c, m);
      CoherentStable(k, m.a.mem, Step(c, m).m.a.mem, lines);
    } else {
      var pc := m.a.pc;
      FetchCoherent(k, m.a.mem, pc, lines);
      TranslateRuns(m.a.mem, pc, lines);
      if m.a.pc + 4 > |m.a.mem| {
        RunOne(c, m);
      } else {
        hide Step;
        var b := Translate(m.a.mem, pc).block;
        steps := ReplayIsRun(c, m, b.ops, lines);
        CoherentStable(Fetch(k, m.a.mem, pc).0, m.a.mem, Replay(c, m, b.ops).m.a.mem, lines);
      }
    }
  }

  /** An aligned line that is memory to its end can be decoded ahead. */
  lemma TranslateFinds(mem: seq<byte>, pc: word)
    requires pc % 4 == 0 && LineEnd(pc) <= |mem|
    ensures Translate(mem, pc).Found?
  {
    DecodeTotal(mem, pc, MAX_LEN);
  }

  // ---------------------------------------------------------------- whole runs

  lemma {:induction false} RunCompose(c: Config, m: Machine, n: nat, more: nat)
    requires Run(c, m, n).Running?
    ensures Run(c, m, n + more) == Run(c, Run(c, m, n).m, more)
    decreases n
  {
    hide Step;
    if n > 0 {
      RunCompose(c, Step(c, m).m, n - 1, more);
    }
  }

  /** A run that is over stays as it ended. */
  lemma {:induction false} RunOver(c: Config, m: Machine, n: nat, more: nat)
    requires !Run(c, m, n).Running?
    ensures Run(c, m, n + more) == Run(c, m, n)
    decreases n
  {
    hide Step;
    if n > 0 && !AtRest(c, m) && Step(c, m).Next? {
      RunOver(c, Step(c, m).m, n - 1, more);
    }
  }

  /** However many turns the fast loop is given, it ends where the plain loop is after some number of steps, and
      after no fewer steps than turns unless that run is already over; and it leaves a coherent cache. */
  lemma {:induction false} FastRunIsRun(c: Config, m: Machine, k: Cache, n: nat, lines: set<int>) returns (steps: nat)
    requires Disciplined(c, m, lines) && Coherent(k, m.a.mem, lines)
    ensures Run(c, m, steps) == FastRun(c, m, k, n).1
    ensures FastRun(c, m, k, n).1.Running? ==> steps >= n
    ensures Coherent(FastRun(c, m, k, n).0, FastRun(c, m, k, n).1.m.a.mem, lines)
    decreases n
  {
    hide Step, Turn, Coherent, Disciplined;
    steps := 0;
    if n > 0 && !AtRest(c, m) {
      steps := TurnIsRun(c, m, k, lines);
      var (k1, out) := Turn(c, m, k);
      if out.Next? {
        var more := FastRunIsRun(c, out.m, k1, n - 1, lines);
        if !AtRest(c, out.m) {
          RunCompose(c, m, steps, more);
          steps := steps + more;
        }
      }
    }
  }

  /** Does the plain loop show this exit after some number of steps? */
  ghost predicate Interprets(c: Config, m: Machine, x: Exit) {
    exists steps: nat :: Run(c, m, steps) == x
  }

  /** The refinement. From a coherent cache, along a disciplined run: every exit
      of the fast loop is the exit of the plain loop, and whenever the plain loop ends within n steps
      the fast loop ends within n turns, in the same state and with the same exception if any. */
  lemma FastRunRefinesRun(c: Config, m: Machine, k: Cache, lines: set<int>)
    requires Disciplined(c, m, lines) && Coherent(k, m.a.mem, lines)
    ensures forall n: nat :: Interprets(c, m, FastRun(c, m, k, n).1)
    ensures forall n: nat :: !Run(c, m, n).Running? ==> FastRun(c, m, k, n).1 == Run(c, m, n)
  {
    hide Run, FastRun;
    forall n: nat
      ensures Interprets(c, m, FastRun(c, m, k, n).1)
      ensures !Run(c, m, n).Running? ==> FastRun(c, m, k, n).1 == Run(c, m, n)
    {
      var steps := FastRunIsRun(c, m, k, n, lines);
      if !Run(c, m, n).Running? {
        if steps <= n && !Run(c, m, steps).Running? {
          RunOver(c, m, steps, n - steps);
        } else if steps >= n {
          RunOver(c, m, n, steps - n);
        }
      }
    }
  }

  /** In particular with the empty cache that loading a program leaves behind. */
  lemma FreshRunRefinesRun(c: Config, m: Machine, lines: set<int>, n: nat)
    requires Disciplined(c, m, lines) && !Run(c, m, n).Running?
    ensures FastRun(c, m, EMPTY, n).1 == Run(c, m, n)
  {
    hide Run, FastRun;
    FastRunRefinesRun(c, m, EMPTY, lines);
  }

  /** With logging on, the fast loop is the plain one, whatever the program does. */
  lemma {:induction false} VerboseRunIsRun(c: Config, m: Machine, k: Cache, n: nat)
    requires c.verbose
    ensures FastRun(c, m, k, n) == (k, Run(c, m, n))
    decreases n
  {
    hide Step;
    if n > 0 && !AtRest(c, m) && Step(c, m).Next? {
      VerboseRunIsRun(c, Step(c, m).m, k, n - 1);
    }
  }
}
