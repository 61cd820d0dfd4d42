/** Sessions of the host with one emulator: calls of step, run and run_fast, loading in between, settings changed
    from call to call. Fast calls refine plain ones over whole sessions, the block cache living on. */
module Sessions {
  import opened Words
  import opened Isa
  import opened Machine
  import opened Blocks
  import opened StepFacts
  import opened FastPath

  /** A call of the host: a step, a run cut off after some steps, a fast run cut off after some turns, or a change
      of registers, memories or block cache between them. Each run has its own settings. */
  datatype Call =
    | StepCall(c: Config)
    | RunCall(c: Config, steps: nat)
    | FastCall(c: Config, turns: nat)
    | Load(a: Arch, k: Cache)

  datatype Session = Session(m: Machine, k: Cache)

  /** An exception ends its call; the host may go on with the machine it leaves. */
  function Make(s: Session, call: Call): Session {
    match call
    case StepCall(c) => s.(m := Step(c, s.m).m)
    case RunCall(c, steps) => s.(m := Run(c, s.m, steps).m)
    case FastCall(c, turns) =>
      var (k1, x) := FastRun(c, s.m, s.k, turns);
      Session(x.m, k1)
    case Load(a, k) => Session(s.m.(a := a), k)
  }

  function After(s: Session, calls: seq<Call>): Session {
    if calls == [] then s else Make(After(s, calls[..|calls| - 1]), calls[|calls| - 1])
  }

  // ---------------------------------------------------------------- refinement

  /** What is asked of each call: a fast run meets the guards of the refinement; steps and plain runs leave the code
      lines alone, for nothing tells the cache; so does a change by the host, unless it empties the cache, as
      loading a program and changing the target do. */
  ghost predicate Allowed(s: Session, call: Call, lines: set<int>) {
    match call
    case StepCall(c) => Stable(s.m.a.mem, Step(c, s.m).m.a.mem, lines)
    case RunCall(c, steps) => Stable(s.m.a.mem, Run(c, s.m, steps).m.a.mem, lines)
    case FastCall(c, _) => Disciplined(c, s.m, lines)
    case Load(a, k) => k == EMPTY || (k == s.k && Stable(s.m.a.mem, a.mem, lines))
  }

  ghost predicate AllAllowed(s: Session, calls: seq<Call>, lines: set<int>) {
    forall i :: 0 <= i < |calls| ==> Allowed(After(s, calls[..i]), calls[i], lines)
  }

  /** The call with a plain run of `steps` steps for a fast one. */
  function Plain(call: Call, steps: nat): Call {
    match call
    case FastCall(c, _) => RunCall(c, steps)
    case _ => call
  }

  function AllPlain(calls: seq<Call>, steps: seq<nat>): (r: seq<Call>)
    requires |steps| == |calls|
    ensures |r| == |calls|
  {
    seq(|calls|, i requires 0 <= i < |calls| => Plain(calls[i], steps[i]))
  }

  /** The plain run shows the exit of the fast one, HALT, breakpoint and exception alike. */
  ghost predicate SameExit(s: Session, call: Call, steps: nat) {
    call.FastCall? ==> Run(call.c, s.m, steps) == FastRun(call.c, s.m, s.k, call.turns).1
  }

  /** One call on a session with a coherent cache and on one that only shares its machine. */
  lemma MakeRefines(s: Session, plain: Session, call: Call, lines: set<int>) returns (steps: nat)
    requires Coherent(s.k, s.m.a.mem, lines) && Allowed(s, call, lines) && plain.m == s.m
    ensures SameExit(s, call, steps) && Make(plain, Plain(call, steps)).m == Make(s, call).m
    ensures Coherent(Make(s, call).k, Make(s, call).m.a.mem, lines)
  {
    hide Step, Run, FastRun, Coherent, Disciplined, Stable;
    steps := 0;
    match call {
      case StepCall(c) => CoherentStable(s.k, s.m.a.mem, Step(c, s.m).m.a.mem, lines);
      case RunCall(c, n) => CoherentStable(s.k, s.m.a.mem, Run(c, s.m, n).m.a.mem, lines);
      case FastCall(c, turns) => steps := FastRunIsRun(c, s.m, s.k, turns, lines);
      case Load(a, k) =>
        EmptyCoherent(a.mem, lines);
        if k != EMPTY {
          CoherentStable(k, s.m.a.mem, a.mem, lines);
        }
    }
  }

  lemma EmptyCoherent(mem: seq<byte>, lines: set<int>)
    ensures Coherent(EMPTY, mem, lines)
  {
  }

  /** Refinement over sessions: with some number of plain steps for every fast call, a session without the block
      cache goes through the same machines and sees the same exits. */
  lemma {:induction false} SessionRefines(s: Session, calls: seq<Call>, lines: set<int>) returns (steps: seq<nat>)
    requires Coherent(s.k, s.m.a.mem, lines) && AllAllowed(s, calls, lines)
    ensures |steps| == |calls| && After(s, AllPlain(calls, steps)).m == After(s, calls).m
    ensures forall i :: 0 <= i < |calls| ==> SameExit(After(s, calls[..i]), calls[i], steps[i])
    ensures Coherent(After(s, calls).k, After(s, calls).m.a.mem, lines)
    decreases |calls|
  {
    hide Make, Coherent, Allowed, SameExit, Plain;
    steps := [];
    if calls != [] {
      var init, last := calls[..|calls| - 1], calls[|calls| - 1];
      forall i | 0 <= i < |init|
        ensures Allowed(After(s, init[..i]), init[i], lines)
      {
        assert init[..i] == calls[..i];
      }
      var before := SessionRefines(s, init, lines);
      assert Allowed(After(s, init), last, lines);
      var n := MakeRefines(After(s, init), After(s, AllPlain(init, before)), last, lines);
      steps := before + [n];
      assert AllPlain(calls, steps)[..|init|] == AllPlain(init, before);
      forall i | 0 <= i < |calls|
        ensures SameExit(After(s, calls[..i]), calls[i], steps[i])
      {
        assert i < |init| ==> calls[..i] == init[..i];
      }
    }
  }

  /** From a machine with an empty cache, as constructed or after loading a program. */
  lemma FreshSessionRefines(m: Machine, calls: seq<Call>, lines: set<int>) returns (steps: seq<nat>)
    requires AllAllowed(Session(m, EMPTY), calls, lines)
    ensures |steps| == |calls| && After(Session(m, EMPTY), AllPlain(calls, steps)).m == After(Session(m, EMPTY), calls).m
    ensures forall i :: 0 <= i < |calls| ==> SameExit(After(Session(m, EMPTY), calls[..i]), calls[i], steps[i])
  {
    hide After, AllAllowed, SameExit;
    EmptyCoherent(m.a.mem, lines);
    steps := SessionRefines(Session(m, EMPTY), calls, lines);
  }
}
