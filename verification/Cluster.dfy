/** Quantum round-robin over cores that do not touch each other's state, with a deterministic clock. */
module Cluster {
  import opened Words
  import opened Isa
  import opened Machine
  import opened Cycles

  const SLOTS: nat := 16

  datatype Core = Core(c: Config, m: Machine)

  type Clocks = s: seq<nat> | |s| == 16 witness seq(16, _ => 0)

  datatype Engine = Engine(clocks: Clocks, global: nat, events: nat)

  datatype State = State(cores: seq<Core>, quantum: nat, engine: Engine)

  datatype Result = Fine(s: State) | Broke(s: State, fault: Fault)

  // ---------------------------------------------------------------- a core by itself

  /** At most n steps, fewer if the core halts; breakpoints are not looked at. */
  function Solo(c: Config, m: Machine, n: nat): Outcome
    decreases n
  {
    if n == 0 || m.a.halt then Next(m)
    else match Step(c, m)
      case Thrown(m1, fault) => Thrown(m1, fault)
      case Next(m1) => Solo(c, m1, n - 1)
  }

  lemma {:induction false} SoloCompose(c: Config, m: Machine, j: nat, k: nat)
    requires Solo(c, m, j).Next?
    ensures Solo(c, m, j + k) == Solo(c, Solo(c, m, j).m, k)
    decreases j
  {
    hide Step;
    if j > 0 && !m.a.halt {
      SoloCompose(c, Step(c, m).m, j - 1, k);
    } else if m.a.halt {
      assert Solo(c, m, k) == Next(m);
    }
  }

  /** Cycles only accumulate. */
  lemma StepGrows(c: Config, m: Machine)
    ensures Step(c, m).m.t.prof.cycles >= m.t.prof.cycles
  {
    hide EnterInterrupt, BusValue, BusAfterRead, Execute, TickPeripherals;
    if !m.a.halt {
      FetchBooks(m);
      var m1 := EnterInterrupt(m);
      if BusServes(m1.a.mem, m1.a.pc) {
        var m2, raw := Advance(BusAfterRead(m1, m1.a.pc)), BusValue(m1, m1.a.pc);
        ExecuteGrows(c, m2, raw);
        TickBooks(Execute(c, m2, raw).m.t);
      }
    }
  }

  lemma ExecuteGrows(c: Config, m: Machine, raw: word)
    ensures Execute(c, m, raw).m.t.prof.cycles >= m.t.prof.cycles
  {
    hide Handle, Record;
    if !Op(raw).Unassigned? {
      HandleGrows(c, m, raw);
      RecordGrows(Handle(c, m, raw).m.t.prof, raw);
    }
  }

  lemma HandleGrows(c: Config, m: Machine, raw: word)
    requires !Op(raw).Unassigned?
    ensures Handle(c, m, raw).m.t.prof.cycles >= m.t.prof.cycles
  {
    hide Record, ProfileWeight, Splice, Read32, Write32;
    RecordGrows(m.t.prof, raw);
  }

  lemma {:induction false} SoloGrows(c: Config, m: Machine, n: nat)
    ensures Solo(c, m, n).m.t.prof.cycles >= m.t.prof.cycles
    decreases n
  {
    hide Step;
    if n > 0 && !m.a.halt {
      StepGrows(c, m);
      if Step(c, m).Next? {
        SoloGrows(c, Step(c, m).m, n - 1);
      }
    }
  }

  // ---------------------------------------------------------------- rounds

  function EngineTick(e: Engine, core: nat, cycles: nat): Engine {
    Engine(e.clocks[core % 16 := e.clocks[core % 16] + cycles], e.global + cycles, e.events + 1)
  }

  /** One core's turn: skipped if it has halted, else a quantum of its own steps and a tick of the clock. */
  function Turn(s: State, i: nat): Result
    requires i < |s.cores|
  {
    var core := s.cores[i];
    if core.m.a.halt then Fine(s)
    else match Solo(core.c, core.m, s.quantum)
      case Thrown(m1, fault) => Broke(s.(cores := s.cores[i := Core(core.c, m1)]), fault)
      case Next(m1) =>
        SoloGrows(core.c, core.m, s.quantum);
        Fine(s.(cores := s.cores[i := Core(core.c, m1)],
                engine := EngineTick(s.engine, i, m1.t.prof.cycles - core.m.t.prof.cycles)))
  }

  /** The turns of the cores from i on. */
  function Turns(s: State, i: nat): Result
    requires i <= |s.cores|
    decreases |s.cores| - i
  {
    if i == |s.cores| then Fine(s)
    else match Turn(s, i)
      case Broke(s1, fault) => Broke(s1, fault)
      case Fine(s1) => Turns(s1, i + 1)
  }

  predicate AllHalted(cores: seq<Core>) {
    forall i :: 0 <= i < |cores| ==> cores[i].m.a.halt
  }

  /** The cluster loop: rounds until every core has halted, the clock has advanced by `budget`, or `fuel`
      rounds have been run. */
  function RunRounds(s: State, start: nat, budget: nat, fuel: nat): Result
    decreases fuel
  {
    if fuel == 0 || AllHalted(s.cores) || s.engine.global - start >= budget then Fine(s)
    else match Turns(s, 0)
      case Broke(s1, fault) => Broke(s1, fault)
      case Fine(s1) => RunRounds(s1, start, budget, fuel - 1)
  }

  /** r rounds, unconditionally. */
  function Rounds(s: State, r: nat): Result
    decreases r
  {
    if r == 0 then Fine(s)
    else match Turns(s, 0)
      case Broke(s1, fault) => Broke(s1, fault)
      case Fine(s1) => Rounds(s1, r - 1)
  }

  // ---------------------------------------------------------------- the object

  datatype Status = Ok | Raised(fault: Fault)

  function ResultAs(s: State, status: Status): Result {
    match status
    case Ok => Fine(s)
    case Raised(fault) => Broke(s, fault)
  }

  class ClusterUnit {
    var cores: seq<Core>
    const quantum: nat
    const clocks: array<nat>
    var global: nat
    var events: nat

    function Value(): State
      requires clocks.Length == SLOTS
      reads this, clocks
    {
      State(cores, quantum, Engine(clocks[..], global, events))
    }

    constructor (initial: seq<Core>, q: nat)
      ensures clocks.Length == SLOTS && fresh(clocks)
      ensures Value() == State(initial, q, Engine(seq(16, _ => 0), 0, 0))
    {
      cores, quantum, global, events := initial, q, 0, 0;
      clocks := new nat[16](_ => 0);
      new;
      assert clocks[..] == seq(16, _ => 0);
    }

    /** The inner loop: steps of one core up to the quantum or HALT. */
    method StepQuantum(c: Config, m0: Machine) returns (m: Machine, status: Status)
      ensures Solo(c, m0, quantum) == (match status case Ok => Next(m) case Raised(fault) => Thrown(m, fault))
    {
      hide Step;
      m, status := m0, Ok;
      var q: nat := 0;
      while q < quantum && !m.a.halt
        invariant q <= quantum && Solo(c, m, quantum - q) == Solo(c, m0, quantum)
      {
        match Step(c, m) {
          case Thrown(m1, fault) => return m1, Raised(fault);
          case Next(m1) => m := m1;
        }
        q := q + 1;
      }
    }

    method TakeTurn(i: nat) returns (status: Status)
      requires clocks.Length == SLOTS && i < |cores|
      modifies this, clocks
      ensures ResultAs(Value(), status) == Turn(old(Value()), i)
    {
      hide Solo;
      var core := cores[i];
      if core.m.a.halt {
        return Ok;
      }
      var m;
      m, status := StepQuantum(core.c, core.m);
      cores := cores[i := Core(core.c, m)];
      if status.Ok? {
        SoloGrows(core.c, core.m, quantum);
        var cycles: nat := m.t.prof.cycles - core.m.t.prof.cycles;
        clocks[i % 16] := clocks[i % 16] + cycles;
        global := global + cycles;
        events := events + 1;
      }
    }

    method TakeRound() returns (status: Status)
      requires clocks.Length == SLOTS
      modifies this, clocks
      ensures ResultAs(Value(), status) == Turns(old(Value()), 0)
    {
      hide Turn;
      status := Ok;
      var i: nat := 0;
      while i < |cores|
        invariant i <= |cores| && status.Ok?
        invariant Turns(Value(), i) == Turns(old(Value()), 0)
      {
        ghost var before := Value();
        status := TakeTurn(i);
        TurnSize(before, i);
        if status.Raised? {
          return;
        }
        i := i + 1;
      }
    }

    method RunCluster(budget: nat, fuel: nat) returns (status: Status)
      requires clocks.Length == SLOTS
      modifies this, clocks
      ensures ResultAs(Value(), status) == RunRounds(old(Value()), old(global), budget, fuel)
    {
      hide Turns;
      status := Ok;
      var start: nat, left: nat := global, fuel;
      while left > 0 && !AllHalted(cores) && global - start < budget
        invariant left <= fuel && status.Ok?
        invariant RunRounds(Value(), start, budget, left) == RunRounds(old(Value()), start, budget, fuel)
        decreases left
      {
        status := TakeRound();
        if status.Raised? {
          return;
        }
        left := left - 1;
      }
    }
  }

  lemma TurnSize(s: State, i: nat)
    requires i < |s.cores|
    ensures |Turn(s, i).s.cores| == |s.cores| && Turn(s, i).s.quantum == s.quantum
  {
    hide Solo;
  }

  // ---------------------------------------------------------------- schedule independence

  /** The core takes n of its own steps, or fewer to its HALT, without an exception. */
  predicate Completes(core: Core, n: nat) {
    Solo(core.c, core.m, n).Next?
  }

  /** Core i after n of its own steps, or at its HALT. */
  function After(core: Core, n: nat): Core {
    Core(core.c, Solo(core.c, core.m, n).m)
  }

  /** The first j cores have taken n more of their own steps, the rest none. */
  ghost predicate Moved(s: State, s': State, j: nat, n: nat) {
    && |s'.cores| == |s.cores| && s'.quantum == s.quantum
    && forall i :: 0 <= i < |s.cores| ==> s'.cores[i] == if i < j then After(s.cores[i], n) else s.cores[i]
  }

  lemma TurnMoves(s: State, s': State, j: nat)
    requires j < |s.cores| && Moved(s, s', j, s.quantum)
    ensures Turn(s', j).Fine? <==> Completes(s.cores[j], s.quantum)
    ensures Turn(s', j).Fine? ==> Moved(s, Turn(s', j).s, j + 1, s.quantum)
  {
    var core := s.cores[j];
    HaltedStays(core.c, core.m, s.quantum);
    hide Solo;
  }

  lemma HaltedStays(c: Config, m: Machine, n: nat)
    ensures m.a.halt ==> Solo(c, m, n) == Next(m)
  {
  }

  lemma {:induction false} TurnsMove(s: State, s': State, j: nat)
    requires j <= |s.cores| && Moved(s, s', j, s.quantum)
    ensures Turns(s', j).Fine? <==> forall i :: j <= i < |s.cores| ==> Completes(s.cores[i], s.quantum)
    ensures Turns(s', j).Fine? ==> Moved(s, Turns(s', j).s, |s.cores|, s.quantum)
    decreases |s.cores| - j
  {
    hide Turn, Completes, Moved;
    MovedSize(s, s', j);
    if j < |s.cores| {
      TurnMoves(s, s', j);
      if Turn(s', j).Fine? {
        TurnsMove(s, Turn(s', j).s, j + 1);
      }
    }
  }

  lemma MovedSize(s: State, s': State, j: nat)
    requires Moved(s, s', j, s.quantum)
    ensures |s'.cores| == |s.cores|
  {
  }

  /** A round completes exactly when every core completes a quantum, and then has moved each by one. */
  lemma RoundMoves(s: State)
    ensures Turns(s, 0).Fine? <==> forall i :: 0 <= i < |s.cores| ==> Completes(s.cores[i], s.quantum)
    ensures Turns(s, 0).Fine? ==> Moved(s, Turns(s, 0).s, |s.cores|, s.quantum)
  {
    hide Turns, Solo, Completes;
    TurnsMove(s, s, 0);
  }

  lemma {:induction false} SoloThrown(c: Config, m: Machine, j: nat, k: nat)
    requires Solo(c, m, j).Thrown?
    ensures Solo(c, m, j + k) == Solo(c, m, j)
    decreases j
  {
    hide Step;
    if Step(c, m).Next? {
      SoloThrown(c, Step(c, m).m, j - 1, k);
    }
  }

  /** Completing j + k steps is completing j, and then k more. */
  lemma CompletesMore(core: Core, j: nat, k: nat)
    ensures Completes(core, j + k) <==> Completes(core, j) && Completes(After(core, j), k)
    ensures Completes(core, j) ==> After(After(core, j), k) == After(core, j + k)
  {
    hide Solo;
    if Completes(core, j) {
      SoloCompose(core.c, core.m, j, k);
    } else {
      SoloThrown(core.c, core.m, j, k);
    }
  }

  /** Schedule independence: r rounds complete exactly when every core by itself completes r quanta of steps,
      and then core i has taken exactly those, or stands at its HALT; neither the number of other cores nor
      what they run matters. */
  lemma {:induction false} RoundsAreSolo(s: State, r: nat)
    ensures Rounds(s, r).Fine? <==> forall i :: 0 <= i < |s.cores| ==> Completes(s.cores[i], r * s.quantum)
    ensures Rounds(s, r).Fine? ==> Moved(s, Rounds(s, r).s, |s.cores|, r * s.quantum)
    decreases r
  {
    hide Turns, Completes, After;
    if r == 0 {
      assert 0 * s.quantum == 0;
      forall i | 0 <= i < |s.cores|
        ensures After(s.cores[i], 0) == s.cores[i] && Completes(s.cores[i], 0)
      {
        NoSteps(s.cores[i]);
      }
    } else {
      RoundMoves(s);
      var n := (r - 1) * s.quantum;
      assert r * s.quantum == s.quantum + n;
      forall i | 0 <= i < |s.cores|
        ensures Completes(s.cores[i], s.quantum + n) <==>
          Completes(s.cores[i], s.quantum) && Completes(After(s.cores[i], s.quantum), n)
        ensures Completes(s.cores[i], s.quantum) ==>
          After(After(s.cores[i], s.quantum), n) == After(s.cores[i], s.quantum + n)
      {
        CompletesMore(s.cores[i], s.quantum, n);
      }
      if Turns(s, 0).Fine? {
        RoundsAreSolo(Turns(s, 0).s, r - 1);
      }
    }
  }

  lemma NoSteps(core: Core)
    ensures After(core, 0) == core && Completes(core, 0)
  {
  }

  /** The conditional loop runs some number of rounds and nothing else. */
  lemma {:induction false} RunIsRounds(s: State, start: nat, budget: nat, fuel: nat) returns (r: nat)
    ensures r <= fuel && Rounds(s, r) == RunRounds(s, start, budget, fuel)
    ensures RunRounds(s, start, budget, fuel).Fine? ==>
      var s' := RunRounds(s, start, budget, fuel).s;
      r == fuel || AllHalted(s'.cores) || s'.engine.global - start >= budget
    decreases fuel
  {
    hide Turns, AllHalted;
    r := 0;
    if fuel > 0 && !AllHalted(s.cores) && s.engine.global - start < budget {
      if Turns(s, 0).Broke? {
        r := 1;
      } else {
        r := RunIsRounds(Turns(s, 0).s, start, budget, fuel - 1);
        r := r + 1;
      }
    }
  }

  lemma SoloHalted(c: Config, m: Machine, j: nat, k: nat)
    requires Solo(c, m, j).Next? && Solo(c, m, j).m.a.halt && Solo(c, m, k).Next? && Solo(c, m, k).m.a.halt
    ensures Solo(c, m, j) == Solo(c, m, k)
  {
    hide Step, Solo;
    if j <= k {
      SoloCompose(c, m, j, k - j);
      HaltedStays(c, Solo(c, m, j).m, k - j);
    } else {
      SoloCompose(c, m, k, j - k);
      HaltedStays(c, Solo(c, m, k).m, j - k);
    }
  }

  /** Two clusters that run the same core, in whatever company and with whatever quanta, leave it in the same
      final state once it has halted in both. */
  lemma FinalStateIndependent(s: State, t: State, i: nat, j: nat, r: nat, q: nat)
    requires Rounds(s, r).Fine? && Rounds(t, q).Fine? && i < |s.cores| && j < |t.cores| && s.cores[i] == t.cores[j]
    ensures |Rounds(s, r).s.cores| == |s.cores| && |Rounds(t, q).s.cores| == |t.cores|
    ensures Rounds(s, r).s.cores[i].m.a.halt && Rounds(t, q).s.cores[j].m.a.halt ==>
      Rounds(s, r).s.cores[i] == Rounds(t, q).s.cores[j]
  {
    hide Rounds, Solo;
    RoundsAreSolo(s, r);
    RoundsAreSolo(t, q);
    var core := s.cores[i];
    var m, n := r * s.quantum, q * t.quantum;
    assert Completes(core, m) && Completes(core, n);
    if Rounds(s, r).s.cores[i].m.a.halt && Rounds(t, q).s.cores[j].m.a.halt {
      SoloHalted(core.c, core.m, m, n);
    }
  }

  // ---------------------------------------------------------------- the clock

  function TotalCycles(cores: seq<Core>): nat {
    if cores == [] then 0 else cores[0].m.t.prof.cycles + TotalCycles(cores[1..])
  }

  lemma {:induction false} TotalUpdate(cores: seq<Core>, i: nat, core: Core)
    requires i < |cores|
    ensures TotalCycles(cores[i := core]) + cores[i].m.t.prof.cycles == TotalCycles(cores) + core.m.t.prof.cycles
  {
    if i == 0 {
      assert cores[i := core][1..] == cores[1..];
    } else {
      TotalUpdate(cores[1..], i - 1, core);
      assert cores[i := core][1..] == cores[1..][i - 1 := core];
    }
  }

  lemma {:induction false} SumUpdate(xs: seq<nat>, i: nat, v: nat)
    requires i < |xs|
    ensures Sum(xs[i := v]) + xs[i] == Sum(xs) + v
  {
    if i == 0 {
      assert xs[i := v][1..] == xs[1..];
    } else {
      SumUpdate(xs[1..], i - 1, v);
      assert xs[i := v][1..] == xs[1..][i - 1 := v];
    }
  }

  /** How far the clock is ahead of the cores' own counts, and of its slots. */
  function Drift(s: State): (int, int) {
    (s.engine.global - TotalCycles(s.cores), s.engine.global - Sum(s.engine.clocks))
  }

  lemma TurnKeepsDrift(s: State, i: nat)
    requires i < |s.cores| && Turn(s, i).Fine?
    ensures Drift(Turn(s, i).s) == Drift(s) && |Turn(s, i).s.cores| == |s.cores|
  {
    hide Solo, Sum;
    var core := s.cores[i];
    if !core.m.a.halt {
      SoloGrows(core.c, core.m, s.quantum);
      var m1 := Solo(core.c, core.m, s.quantum).m;
      var cycles := m1.t.prof.cycles - core.m.t.prof.cycles;
      TotalUpdate(s.cores, i, Core(core.c, m1));
      SumUpdate(s.engine.clocks, i % 16, s.engine.clocks[i % 16] + cycles);
    }
  }

  lemma {:induction false} TurnsKeepDrift(s: State, i: nat)
    requires i <= |s.cores| && Turns(s, i).Fine?
    ensures Drift(Turns(s, i).s) == Drift(s)
    decreases |s.cores| - i
  {
    hide Turn, Drift;
    if i < |s.cores| {
      TurnKeepsDrift(s, i);
      TurnsKeepDrift(Turn(s, i).s, i + 1);
    }
  }

  /** Clock conservation: over any rounds without exceptions the global clock advances by exactly the cycles
      the cores spent, and by exactly what its slots advanced. */
  lemma {:induction false} ClockConservation(s: State, r: nat)
    requires Rounds(s, r).Fine?
    ensures var s' := Rounds(s, r).s;
      && s'.engine.global - s.engine.global == TotalCycles(s'.cores) - TotalCycles(s.cores)
      && s'.engine.global - s.engine.global == Sum(s'.engine.clocks) - Sum(s.engine.clocks)
    decreases r
  {
    hide Turns;
    if r > 0 {
      TurnsKeepDrift(s, 0);
      ClockConservation(Turns(s, 0).s, r - 1);
    }
  }
}
