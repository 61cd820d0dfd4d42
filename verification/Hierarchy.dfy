/** Three cache levels in front of an open-row memory controller, and exact accounting across them. */
module Hierarchy {
  import C = Cache

  datatype McConfig = McConfig(tCAS: nat, tRCD: nat, tRP: nat, banks: nat)

  datatype Mc = Mc(cfg: McConfig, rowHits: nat, rowMisses: nat, openRows: seq<nat>) {
    predicate Usable() {
      cfg.banks > 0 && |openRows| == 32
    }
  }

  function Slot(m: Mc, addr: nat): (s: nat)
    requires m.Usable()
    ensures s < 32
  {
    addr / 64 % m.cfg.banks % 32
  }

  function Row(addr: nat): nat {
    addr / 0x1000
  }

  /** The controller remembers one open row per slot of its table. */
  function McAccess(m: Mc, addr: nat): (Mc, nat)
    requires m.Usable()
  {
    if m.openRows[Slot(m, addr)] == Row(addr) then (m.(rowHits := m.rowHits + 1), m.cfg.tCAS)
    else (m.(rowMisses := m.rowMisses + 1, openRows := m.openRows[Slot(m, addr) := Row(addr)]),
          m.cfg.tCAS + m.cfg.tRCD + m.cfg.tRP)
  }

  datatype State = State(l1: C.State, l2: C.State, l3: C.State, mc: Mc) {
    ghost predicate Shaped() {
      l1.Shaped() && l2.Shaped() && l3.Shaped() && mc.Usable()
    }

    ghost predicate Filled() {
      Shaped() && l1.sets != [] && l2.sets != [] && l3.sets != []
    }
  }

  /** Each level is asked only when the one above misses; the stalls add up. */
  function Access(h: State, addr: nat, isWrite: bool): (r: (State, nat))
    requires h.Shaped()
    ensures r.0.Shaped() && (h.Filled() ==> r.0.Filled())
  {
    var h1 := h.(l1 := C.Access(h.l1, addr, isWrite));
    var s1 := C.Stall(h.l1, addr, 0);
    if C.Hits(h.l1, addr) then (h1, s1)
    else
      var h2 := h1.(l2 := C.Access(h.l2, addr, isWrite));
      var s2 := C.Stall(h.l2, addr, s1);
      if C.Hits(h.l2, addr) then (h2, s1 + s2)
      else
        var h3 := h2.(l3 := C.Access(h.l3, addr, isWrite));
        var s3 := C.Stall(h.l3, addr, s2);
        if C.Hits(h.l3, addr) then (h3, s1 + s2 + s3)
        else
          var (mc, s4) := McAccess(h.mc, addr);
          (h3.(mc := mc), s1 + s2 + s3 + s4)
  }

  // ---------------------------------------------------------------- the objects

  class MemoryController {
    var cfg: McConfig
    var rowHits: nat
    var rowMisses: nat
    const openRows: array<nat>

    function Value(): Mc
      reads this, openRows
    {
      Mc(cfg, rowHits, rowMisses, openRows[..])
    }

    constructor (c: McConfig)
      ensures Value() == Mc(c, 0, 0, seq(32, _ => 0)) && fresh(openRows)
    {
      cfg, rowHits, rowMisses := c, 0, 0;
      openRows := new nat[32](_ => 0);
      new;
      assert openRows[..] == seq(32, _ => 0);
    }

    method AccessRow(addr: nat) returns (stall: nat)
      requires Value().Usable()
      modifies this`rowHits, this`rowMisses, openRows
      ensures (Value(), stall) == McAccess(old(Value()), addr)
    {
      var slot := Slot(Value(), addr);
      if openRows[slot] == Row(addr) {
        rowHits := rowHits + 1;
        return cfg.tCAS;
      }
      rowMisses := rowMisses + 1;
      openRows[slot] := Row(addr);
      return cfg.tCAS + cfg.tRCD + cfg.tRP;
    }
  }

  class CacheHierarchy {
    const l1: C.CacheUnit
    const l2: C.CacheUnit
    const l3: C.CacheUnit
    const mc: MemoryController

    ghost predicate Valid() {
      l1 != l2 && l1 != l3 && l2 != l3
    }

    function Value(): State
      reads l1, l2, l3, mc, mc.openRows
    {
      State(l1.Value(), l2.Value(), l3.Value(), mc.Value())
    }

    constructor (c1: C.Config, c2: C.Config, c3: C.Config, m: McConfig)
      requires c1.Usable() && c2.Usable() && c3.Usable()
      ensures Valid()
      ensures Value() == State(C.Configured(c1), C.Configured(c2), C.Configured(c3), Mc(m, 0, 0, seq(32, _ => 0)))
    {
      l1 := new C.CacheUnit(c1);
      l2 := new C.CacheUnit(c2);
      l3 := new C.CacheUnit(c3);
      mc := new MemoryController(m);
    }

    method AccessAll(addr: nat, isWrite: bool) returns (stall: nat)
      requires Valid() && Value().Shaped()
      modifies l1, l2, l3, mc, mc.openRows
      ensures (Value(), stall) == Access(old(Value()), addr, isWrite)
    {
      hide C.Access, C.Hits, C.Stall, McAccess;
      var hit, tmp := l1.AccessLine(addr, isWrite, 0);
      stall := tmp;
      if hit {
        return;
      }
      hit, tmp := l2.AccessLine(addr, isWrite, tmp);
      stall := stall + tmp;
      if hit {
        return;
      }
      hit, tmp := l3.AccessLine(addr, isWrite, tmp);
      stall := stall + tmp;
      if hit {
        return;
      }
      tmp := mc.AccessRow(addr);
      stall := stall + tmp;
    }
  }

  // ---------------------------------------------------------------- accounting

  /** One level's accesses. */
  function Asked(c: C.State): nat {
    c.hits + c.misses
  }

  function LevelCost(c: C.State): nat {
    c.hits * c.cfg.hitLatency + c.misses * c.cfg.missPenalty
  }

  function McCost(m: Mc): nat {
    m.rowHits * m.cfg.tCAS + m.rowMisses * (m.cfg.tCAS + m.cfg.tRCD + m.cfg.tRP)
  }

  function TotalCost(h: State): nat {
    LevelCost(h.l1) + LevelCost(h.l2) + LevelCost(h.l3) + McCost(h.mc)
  }

  /** Each level has been asked once per miss of the level above, the controller once per L3 miss. */
  predicate Chained(h: State) {
    && Asked(h.l2) == h.l1.misses && Asked(h.l3) == h.l2.misses
    && h.mc.rowHits + h.mc.rowMisses == h.l3.misses
  }

  lemma Distribute(x: nat, k: nat)
    ensures (x + 1) * k == x * k + k
  {
  }

  lemma LevelStep(c: C.State, addr: nat, isWrite: bool, before: nat)
    requires c.Shaped() && c.sets != []
    ensures var c' := C.Access(c, addr, isWrite);
      && c'.cfg == c.cfg && Asked(c') == Asked(c) + 1
      && c'.misses == c.misses + (if C.Hits(c, addr) then 0 else 1)
      && LevelCost(c') == LevelCost(c) + C.Stall(c, addr, before)
  {
    hide C.SetAccess, C.SetHit, C.SetWritesBack;
    Distribute(c.hits, c.cfg.hitLatency);
    Distribute(c.misses, c.cfg.missPenalty);
  }

  lemma McStep(m: Mc, addr: nat)
    requires m.Usable()
    ensures var (m', stall) := McAccess(m, addr);
      m'.rowHits + m'.rowMisses == m.rowHits + m.rowMisses + 1 && McCost(m') == McCost(m) + stall
  {
    Distribute(m.rowHits, m.cfg.tCAS);
    Distribute(m.rowMisses, m.cfg.tCAS + m.cfg.tRCD + m.cfg.tRP);
  }

  lemma AccessChained(h: State, addr: nat, isWrite: bool)
    requires h.Filled() && Chained(h)
    ensures var (h', stall) := Access(h, addr, isWrite);
      Chained(h') && TotalCost(h') == TotalCost(h) + stall && Asked(h'.l1) == Asked(h.l1) + 1
  {
    var s1 := C.Stall(h.l1, addr, 0);
    var s2 := C.Stall(h.l2, addr, s1);
    LevelStep(h.l1, addr, isWrite, 0);
    LevelStep(h.l2, addr, isWrite, s1);
    LevelStep(h.l3, addr, isWrite, s2);
    McStep(h.mc, addr);
    hide C.Access, C.Hits, C.Stall, McAccess, LevelCost, McCost;
  }

  datatype Request = Request(addr: nat, isWrite: bool)

  /** A run of requests: the final state and the stalls reported, summed. */
  function Run(h: State, requests: seq<Request>): (r: (State, nat))
    requires h.Shaped()
    ensures r.0.Shaped() && (h.Filled() ==> r.0.Filled())
  {
    if requests == [] then (h, 0)
    else
      var (h1, stalls) := Run(h, requests[..|requests| - 1]);
      var q := requests[|requests| - 1];
      var (h2, stall) := Access(h1, q.addr, q.isWrite);
      (h2, stalls + stall)
  }

  lemma {:induction false} RunChained(h: State, requests: seq<Request>)
    requires h.Filled() && Chained(h)
    ensures var (h', stalls) := Run(h, requests);
      Chained(h') && TotalCost(h') == TotalCost(h) + stalls && Asked(h'.l1) == Asked(h.l1) + |requests|
  {
    hide Access, Chained, TotalCost, Asked;
    if requests != [] {
      var init, q := requests[..|requests| - 1], requests[|requests| - 1];
      RunChained(h, init);
      AccessChained(Run(h, init).0, q.addr, q.isWrite);
    }
  }

  /** Hierarchy accounting: from zero counters, level by level and cycle by cycle. */
  lemma HierarchyAccounting(c1: C.Config, c2: C.Config, c3: C.Config, m: McConfig, requests: seq<Request>)
    requires c1.Usable() && c2.Usable() && c3.Usable() && m.banks > 0
    requires c1.SetCount() > 0 && c2.SetCount() > 0 && c3.SetCount() > 0
    ensures var h := State(C.Configured(c1), C.Configured(c2), C.Configured(c3), Mc(m, 0, 0, seq(32, _ => 0)));
      && h.Filled()
      && var (h', stalls) := Run(h, requests);
        && Asked(h'.l1) == |requests| && Asked(h'.l2) == h'.l1.misses && Asked(h'.l3) == h'.l2.misses
        && h'.mc.rowHits + h'.mc.rowMisses == h'.l3.misses
        && stalls == TotalCost(h')
  {
    var h := State(C.Configured(c1), C.Configured(c2), C.Configured(c3), Mc(m, 0, 0, seq(32, _ => 0)));
    assert TotalCost(h) == 0;
    RunChained(h, requests);
    hide Run, TotalCost;
  }
}
