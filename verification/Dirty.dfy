/** Dirty data is conserved: it becomes dirty by a write, and leaves by a writeback or a flush. */
module Dirty {
  import opened Cache
  import opened Lru

  function Bit(b: bool): nat {
    if b then 1 else 0
  }

  function DirtyIn(ways: Ways): nat {
    if ways == [] then 0 else Bit(ways[0].dirty) + DirtyIn(ways[1..])
  }

  function DirtyTotal(sets: seq<Ways>): nat {
    if sets == [] then 0 else DirtyIn(sets[0]) + DirtyTotal(sets[1..])
  }

  lemma {:induction false} DirtyUpdate(ways: Ways, w: nat, l: Line)
    requires w < |ways|
    ensures DirtyIn(ways[w := l]) + Bit(ways[w].dirty) == DirtyIn(ways) + Bit(l.dirty)
  {
    if w == 0 {
      assert ways[w := l][1..] == ways[1..];
    } else {
      DirtyUpdate(ways[1..], w - 1, l);
      assert ways[w := l][1..] == ways[1..][w - 1 := l];
    }
  }

  lemma {:induction false} TotalUpdate(sets: seq<Ways>, s: nat, ways: Ways)
    requires s < |sets|
    ensures DirtyTotal(sets[s := ways]) + DirtyIn(sets[s]) == DirtyTotal(sets) + DirtyIn(ways)
  {
    if s == 0 {
      assert sets[s := ways][1..] == sets[1..];
    } else {
      TotalUpdate(sets[1..], s - 1, ways);
      assert sets[s := ways][1..] == sets[1..][s - 1 := ways];
    }
  }

  /** A write that leaves a line dirty which was not resident and dirty before. */
  predicate Soils(c: State, addr: nat, isWrite: bool)
    requires c.Shaped()
  {
    isWrite && c.sets != []
    && var ways := c.sets[SetOf(c, LineOf(c, addr))];
      var w := FindWay(ways, LineOf(c, addr));
      w < |ways| ==> !ways[w].dirty
  }

  lemma AccessBooks(c: State, addr: nat, isWrite: bool)
    requires c.Shaped()
    ensures var c' := Access(c, addr, isWrite);
      && c'.writebacks + DirtyTotal(c'.sets) == c.writebacks + DirtyTotal(c.sets) + Bit(Soils(c, addr, isWrite))
      && c'.writebacks - c.writebacks <= c'.misses - c.misses
      && c'.misses >= c.misses
  {
    if c.sets != [] {
      var line := LineOf(c, addr);
      var s := SetOf(c, line);
      var ways := c.sets[s];
      var ways' := SetAccess(ways, line, isWrite, c.tick + 1);
      var w := FindWay(ways, line);
      if w < |ways| {
        DirtyUpdate(ways, w, Touched(ways[w], isWrite, c.tick + 1));
      } else {
        DirtyUpdate(ways, Oldest(ways, |ways|), Line(true, isWrite, line, c.tick + 1));
      }
      TotalUpdate(c.sets, s, ways');
    }
  }

  lemma {:induction false} CleanTotal(sets: seq<Ways>)
    requires forall s, w :: 0 <= s < |sets| && 0 <= w < |sets[s]| ==> !sets[s][w].dirty
    ensures DirtyTotal(sets) == 0
  {
    if sets != [] {
      CleanIn(sets[0]);
      CleanTotal(sets[1..]);
    }
  }

  lemma {:induction false} CleanIn(ways: Ways)
    requires forall w :: 0 <= w < |ways| ==> !ways[w].dirty
    ensures DirtyIn(ways) == 0
  {
    if ways != [] {
      CleanIn(ways[1..]);
    }
  }

  // ---------------------------------------------------------------- over traces

  /** Clean-to-dirty transitions, lines dropped dirty by flushes, and writes of a trace. */
  datatype Ledger = Ledger(soiled: nat, dropped: nat, writes: nat)

  function Booked(cfg: Config, trace: seq<Event>): Ledger
    requires cfg.Usable()
  {
    if trace == [] then Ledger(0, 0, 0)
    else
      var init := trace[..|trace| - 1];
      var b, c := Booked(cfg, init), After(cfg, init);
      match trace[|trace| - 1]
      case FlushAll => b.(dropped := b.dropped + DirtyTotal(c.sets))
      case Touches(addr, isWrite) =>
        Ledger(b.soiled + Bit(Soils(c, addr, isWrite)), b.dropped, b.writes + Bit(isWrite))
  }

  /** Conservation of dirty data: every line that became dirty was written back, dropped by a flush, or is
      dirty still; so without flushes writebacks never exceed writes, and they never exceed misses. */
  lemma {:induction false} DirtyConservation(cfg: Config, trace: seq<Event>)
    requires cfg.Usable()
    ensures var c, b := After(cfg, trace), Booked(cfg, trace);
      && c.writebacks + DirtyTotal(c.sets) + b.dropped == b.soiled
      && b.soiled <= b.writes && c.writebacks <= b.writes && c.writebacks <= c.misses
  {
    hide Access, Soils, SetAccess;
    if trace == [] {
      CleanTotal(Configured(cfg).sets);
    } else {
      var init := trace[..|trace| - 1];
      DirtyConservation(cfg, init);
      match trace[|trace| - 1]
      case FlushAll => CleanTotal(Flush(After(cfg, init)).sets);
      case Touches(addr, isWrite) =>
        AccessBooks(After(cfg, init), addr, isWrite);
        OnlyWritesSoil(After(cfg, init), addr, isWrite);
    }
  }

  lemma OnlyWritesSoil(c: State, addr: nat, isWrite: bool)
    requires c.Shaped()
    ensures Soils(c, addr, isWrite) ==> isWrite
  {
  }

  // ---------------------------------------------------------------- what the dirty bit means

  /** By recency alone: would this line hit after the trace? */
  predicate Resident(cfg: Config, trace: seq<Event>, line: nat)
    requires cfg.Usable() && cfg.SetCount() > 0
  {
    var recency := Recency(cfg.lineBytes, cfg.SetCount(), line % cfg.SetCount(), trace);
    line in recency[..Min(cfg.assoc, |recency|)]
  }

  /** Was the line written by the access that filled it last, or by one since? */
  predicate WrittenSinceFill(cfg: Config, trace: seq<Event>, line: nat)
    requires cfg.Usable() && cfg.SetCount() > 0
  {
    trace != []
    && var init := trace[..|trace| - 1];
      match trace[|trace| - 1]
      case FlushAll => false
      case Touches(addr, isWrite) =>
        if addr / cfg.lineBytes == line then isWrite || (Resident(cfg, init, line) && WrittenSinceFill(cfg, init, line))
        else WrittenSinceFill(cfg, init, line)
  }

  /** Tracked sets hold no line twice. */
  lemma UniqueTag(ways: Ways, recency: seq<nat>, now: nat, v: nat, w: nat)
    requires Refines(ways, recency, now) && v < |ways| && w < |ways| && v != w
    requires ways[v].valid && ways[w].valid
    ensures ways[v].tag != ways[w].tag
  {
    hide Descending, Spare, Holds;
    var order :| Tracks(ways, recency, order, now);
    WayInOrder(ways, recency, order, now, v);
    WayInOrder(ways, recency, order, now, w);
    var i :| 0 <= i < |order| && order[i] == v && recency[i] == ways[v].tag;
    var j :| 0 <= j < |order| && order[j] == w && recency[j] == ways[w].tag;
  }

  /** Every way is dirty exactly when it is valid and its tag is marked, and tags are not repeated. */
  ghost predicate BitsAre(ways: Ways, marked: nat -> bool) {
    forall w :: 0 <= w < |ways| ==> ways[w].dirty == (ways[w].valid && marked(ways[w].tag))
  }

  ghost predicate NoTwins(ways: Ways) {
    forall v, w :: 0 <= v < w < |ways| && ways[v].valid && ways[w].valid ==> ways[v].tag != ways[w].tag
  }

  lemma TrackedNoTwins(ways: Ways, recency: seq<nat>, now: nat)
    requires Refines(ways, recency, now)
    ensures NoTwins(ways)
  {
    hide Refines;
    forall v, w | 0 <= v < w < |ways| && ways[v].valid && ways[w].valid
      ensures ways[v].tag != ways[w].tag
    {
      UniqueTag(ways, recency, now, v, w);
    }
  }

  lemma SetBits(ways: Ways, line: nat, isWrite: bool, now: nat, before: nat -> bool, after: nat -> bool)
    requires ways != [] && BitsAre(ways, before) && NoTwins(ways)
    requires after(line) == (isWrite || (SetHit(ways, line) && before(line)))
    requires forall t :: t != line ==> after(t) == before(t)
    ensures BitsAre(SetAccess(ways, line, isWrite, now), after)
  {
    var hit := FindWay(ways, line);
    forall w | 0 <= w < |ways| && w != hit && ways[w].valid
      ensures ways[w].tag != line
    {
      if w > hit {
        assert ways[hit].valid && ways[hit].tag == line;
      }
    }
  }

  function Marks(cfg: Config, trace: seq<Event>): nat -> bool
    requires cfg.Usable() && cfg.SetCount() > 0
  {
    (line: nat) => WrittenSinceFill(cfg, trace, line)
  }

  /** The bits of set s are right: dirty means written since the last fill. */
  ghost predicate BitsRight(cfg: Config, trace: seq<Event>, s: nat)
    requires cfg.Usable() && s < cfg.SetCount()
  {
    BitsAre(After(cfg, trace).sets[s], Marks(cfg, trace))
  }

  lemma MarksStep(cfg: Config, trace: seq<Event>)
    requires cfg.Usable() && cfg.SetCount() > 0 && trace != [] && trace[|trace| - 1].Touches?
    ensures var init, e := trace[..|trace| - 1], trace[|trace| - 1];
      var line := e.addr / cfg.lineBytes;
      && (Marks(cfg, trace)(line) <==> e.isWrite || (Resident(cfg, init, line) && Marks(cfg, init)(line)))
      && (forall t: nat :: t != line ==> Marks(cfg, trace)(t) == Marks(cfg, init)(t))
  {
    hide Resident;
  }

  /** Valid lines sit in the set their number maps to. */
  lemma {:induction false} TagInSet(cfg: Config, trace: seq<Event>, s: nat, w: nat)
    requires cfg.Usable() && s < cfg.SetCount() && w < cfg.assoc && After(cfg, trace).sets[s][w].valid
    ensures After(cfg, trace).sets[s][w].tag % cfg.SetCount() == s
    decreases |trace|
  {
    if trace != [] {
      var init := trace[..|trace| - 1];
      match trace[|trace| - 1]
      case FlushAll =>
      case Touches(addr, isWrite) =>
        AfterAccess(cfg, trace, s);
        if After(cfg, init).sets[s][w].valid {
          TagInSet(cfg, init, s, w);
        }
    }
  }

  lemma ResidentIsHit(cfg: Config, trace: seq<Event>, s: nat, line: nat)
    requires cfg.Usable() && s < cfg.SetCount() && line % cfg.SetCount() == s
    ensures Resident(cfg, trace, line) <==> SetHit(After(cfg, trace).sets[s], line)
    ensures NoTwins(After(cfg, trace).sets[s])
  {
    var c, recency := After(cfg, trace), Recency(cfg.lineBytes, cfg.SetCount(), s, trace);
    TraceRefines(cfg, trace, s);
    hide After, SetHit, Recency, Refines;
    Residents(c.sets[s], recency, c.tick, line);
    TrackedNoTwins(c.sets[s], recency, c.tick);
  }

  /** An access to set s keeps its bits right ... */
  lemma TouchOwnSet(cfg: Config, trace: seq<Event>, s: nat)
    requires cfg.Usable() && s < cfg.SetCount() && trace != [] && trace[|trace| - 1].Touches?
    requires BitsRight(cfg, trace[..|trace| - 1], s) && trace[|trace| - 1].addr / cfg.lineBytes % cfg.SetCount() == s
    ensures BitsRight(cfg, trace, s)
  {
    var init, isWrite := trace[..|trace| - 1], trace[|trace| - 1].isWrite;
    var c, line := After(cfg, init), trace[|trace| - 1].addr / cfg.lineBytes;
    MarksStep(cfg, trace);
    AfterAccess(cfg, trace, s);
    ResidentIsHit(cfg, init, s, line);
    hide After, WrittenSinceFill, SetAccess, SetHit, FindWay, Resident, Marks, BitsAre, NoTwins;
    SetBits(c.sets[s], line, isWrite, c.tick + 1, Marks(cfg, init), Marks(cfg, trace));
  }

  /** ... and an access elsewhere does not touch them. */
  lemma TouchOtherSet(cfg: Config, trace: seq<Event>, s: nat)
    requires cfg.Usable() && s < cfg.SetCount() && trace != [] && trace[|trace| - 1].Touches?
    requires BitsRight(cfg, trace[..|trace| - 1], s) && trace[|trace| - 1].addr / cfg.lineBytes % cfg.SetCount() != s
    ensures BitsRight(cfg, trace, s)
  {
    var init, line := trace[..|trace| - 1], trace[|trace| - 1].addr / cfg.lineBytes;
    var ways := After(cfg, init).sets[s];
    MarksStep(cfg, trace);
    AfterAccess(cfg, trace, s);
    forall w | 0 <= w < |ways| && ways[w].valid
      ensures ways[w].tag != line
    {
      TagInSet(cfg, init, s, w);
    }
    hide After, WrittenSinceFill, SetAccess, Marks, Resident;
  }

  /** What a dirty bit means: after any trace, a way of any set is dirty exactly when it is valid and its line
      was written by its last fill or by an access since. */
  lemma {:induction false} DirtyBitMeaning(cfg: Config, trace: seq<Event>, s: nat)
    requires cfg.Usable() && s < cfg.SetCount()
    ensures BitsRight(cfg, trace, s)
  {
    hide SetAccess, WrittenSinceFill;
    if trace != [] {
      DirtyBitMeaning(cfg, trace[..|trace| - 1], s);
      if trace[|trace| - 1].Touches? {
        if trace[|trace| - 1].addr / cfg.lineBytes % cfg.SetCount() == s {
          TouchOwnSet(cfg, trace, s);
        } else {
          TouchOtherSet(cfg, trace, s);
        }
      }
    }
  }
}
