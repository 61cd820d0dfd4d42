/** A set-associative write-back cache with timestamp LRU replacement. */
module Cache {

  datatype Config = Config(sizeBytes: nat, lineBytes: nat, assoc: nat, hitLatency: nat, missPenalty: nat) {
    predicate Usable() {
      lineBytes > 0 && assoc > 0
    }

    function SetCount(): nat
      requires Usable()
    {
      NonZero(lineBytes, assoc);
      sizeBytes / (lineBytes * assoc)
    }
  }

  lemma NonZero(x: nat, y: nat)
    requires x > 0 && y > 0
    ensures x * y > 0
  {
  }

  datatype Line = Line(valid: bool, dirty: bool, tag: nat, lru: nat)

  const EMPTY_LINE := Line(false, false, 0, 0)

  type Ways = seq<Line>

  datatype State = State(cfg: Config, sets: seq<Ways>, tick: nat, hits: nat, misses: nat, writebacks: nat) {
    /** As configure leaves it and every operation keeps it: non-empty lines, sets of `assoc` ways. */
    ghost predicate Shaped() {
      cfg.Usable() && forall s :: 0 <= s < |sets| ==> |sets[s]| == cfg.assoc
    }
  }

  function Configured(cfg: Config): (r: State)
    requires cfg.Usable()
    ensures r.Shaped()
  {
    State(cfg, seq(cfg.SetCount(), _ => seq(cfg.assoc, _ => EMPTY_LINE)), 0, 0, 0, 0)
  }

  // ---------------------------------------------------------------- one set

  /** The first valid way holding `tag`, or the number of ways. */
  function FindWay(ways: Ways, tag: nat): (w: nat)
    ensures w <= |ways|
    ensures w < |ways| ==> ways[w].valid && ways[w].tag == tag
    ensures forall v :: 0 <= v < w ==> !(ways[v].valid && ways[v].tag == tag)
  {
    if ways == [] || (ways[0].valid && ways[0].tag == tag) then 0 else 1 + FindWay(ways[1..], tag)
  }

  /** The first of the first `n` ways with the least timestamp. */
  function Oldest(ways: Ways, n: nat): (w: nat)
    requires 0 < n <= |ways|
    ensures w < n
    ensures forall v :: 0 <= v < n ==> ways[w].lru <= ways[v].lru
    ensures forall v :: 0 <= v < w ==> ways[w].lru < ways[v].lru
  {
    if n == 1 then 0
    else
      var w := Oldest(ways, n - 1);
      if ways[n - 1].lru < ways[w].lru then n - 1 else w
  }

  function Touched(l: Line, isWrite: bool, now: nat): Line {
    l.(lru := now, dirty := l.dirty || isWrite)
  }

  function SetAccess(ways: Ways, tag: nat, isWrite: bool, now: nat): (r: Ways)
    requires ways != []
    ensures |r| == |ways|
  {
    var w := FindWay(ways, tag);
    if w < |ways| then ways[w := Touched(ways[w], isWrite, now)]
    else ways[Oldest(ways, |ways|) := Line(true, isWrite, tag, now)]
  }

  predicate SetHit(ways: Ways, tag: nat) {
    FindWay(ways, tag) < |ways|
  }

  predicate SetWritesBack(ways: Ways, tag: nat)
    requires ways != []
  {
    !SetHit(ways, tag) && ways[Oldest(ways, |ways|)].dirty
  }

  // ---------------------------------------------------------------- the cache

  function LineOf(c: State, addr: nat): nat
    requires c.cfg.lineBytes > 0
  {
    addr / c.cfg.lineBytes
  }

  function SetOf(c: State, line: nat): (s: nat)
    requires c.sets != []
    ensures s < |c.sets|
  {
    line % |c.sets|
  }

  /** Whether an access hits; a cache without sets always does. */
  predicate Hits(c: State, addr: nat)
    requires c.Shaped()
  {
    c.sets == [] || SetHit(c.sets[SetOf(c, LineOf(c, addr))], LineOf(c, addr))
  }

  /** The stall an access reports; without sets it leaves the caller's value alone. */
  function Stall(c: State, addr: nat, before: nat): nat
    requires c.Shaped()
  {
    if c.sets == [] then before else if Hits(c, addr) then c.cfg.hitLatency else c.cfg.missPenalty
  }

  function Access(c: State, addr: nat, isWrite: bool): (r: State)
    requires c.Shaped()
    ensures r.Shaped() && |r.sets| == |c.sets| && r.cfg == c.cfg
  {
    if c.sets == [] then c
    else
      var line := LineOf(c, addr);
      var s := SetOf(c, line);
      var ways := c.sets[s];
      var hit := SetHit(ways, line);
      State(c.cfg, c.sets[s := SetAccess(ways, line, isWrite, c.tick + 1)], c.tick + 1,
            if hit then c.hits + 1 else c.hits, if hit then c.misses else c.misses + 1,
            if SetWritesBack(ways, line) then c.writebacks + 1 else c.writebacks)
  }

  function Cleared(l: Line): Line {
    l.(valid := false, dirty := false)
  }

  function ClearedWays(ways: Ways): (r: Ways)
    ensures |r| == |ways|
  {
    seq(|ways|, w requires 0 <= w < |ways| => Cleared(ways[w]))
  }

  /** Flushing drops every line, dirty or not, but keeps the timestamps. */
  function Flush(c: State): (r: State)
    requires c.Shaped()
    ensures r.Shaped() && |r.sets| == |c.sets| && r.cfg == c.cfg
  {
    c.(sets := seq(|c.sets|, s requires 0 <= s < |c.sets| => ClearedWays(c.sets[s])))
  }

  // ---------------------------------------------------------------- the object

  class CacheUnit {
    var cfg: Config
    var sets: seq<Ways>
    var tick: nat
    var hits: nat
    var misses: nat
    var writebacks: nat

    function Value(): State
      reads this
    {
      State(cfg, sets, tick, hits, misses, writebacks)
    }

    constructor (c: Config)
      requires c.Usable()
      ensures Value() == Configured(c)
    {
      cfg, sets := c, seq(c.SetCount(), _ => seq(c.assoc, _ => EMPTY_LINE));
      tick, hits, misses, writebacks := 0, 0, 0, 0;
    }

    /** The search loop: the way that hits, or the number of ways. */
    method Search(ways: Ways, tag: nat) returns (w: nat)
      ensures w == FindWay(ways, tag)
    {
      w := 0;
      assert ways[0..] == ways;
      while w < |ways| && !(ways[w].valid && ways[w].tag == tag)
        invariant w <= |ways| && FindWay(ways, tag) == w + FindWay(ways[w..], tag)
      {
        assert ways[w..][1..] == ways[w + 1..];
        w := w + 1;
      }
    }

    /** The victim loop: the first way with the least timestamp. */
    method PickVictim(ways: Ways) returns (v: nat)
      requires ways != []
      ensures v == Oldest(ways, |ways|)
    {
      v := 0;
      for i := 1 to |ways|
        invariant v < i && v == Oldest(ways, i)
      {
        if ways[i].lru < ways[v].lru {
          v := i;
        }
      }
    }

    method AccessLine(addr: nat, isWrite: bool, stallIn: nat) returns (hit: bool, stall: nat)
      requires Value().Shaped()
      modifies this
      ensures Value() == Access(old(Value()), addr, isWrite)
      ensures hit == Hits(old(Value()), addr) && stall == Stall(old(Value()), addr, stallIn)
    {
      hide FindWay, Oldest;
      if |sets| == 0 {
        return true, stallIn;
      }
      var line := addr / cfg.lineBytes;
      var s := line % |sets|;
      tick := tick + 1;
      var w := Search(sets[s], line);
      if w < |sets[s]| {
        sets := sets[s := sets[s][w := Touched(sets[s][w], isWrite, tick)]];
        hits := hits + 1;
        return true, cfg.hitLatency;
      }
      var v := PickVictim(sets[s]);
      if sets[s][v].dirty {
        writebacks := writebacks + 1;
      }
      sets := sets[s := sets[s][v := Line(true, isWrite, line, tick)]];
      misses := misses + 1;
      return false, cfg.missPenalty;
    }

    method FlushAll()
      requires Value().Shaped()
      modifies this
      ensures Value() == Flush(old(Value()))
    {
      ghost var was := sets;
      for s := 0 to |sets|
        invariant |sets| == |was| && cfg == old(cfg) && tick == old(tick)
        invariant hits == old(hits) && misses == old(misses) && writebacks == old(writebacks)
        invariant forall k :: 0 <= k < |was| ==> sets[k] == if k < s then ClearedWays(was[k]) else was[k]
      {
        sets := sets[s := ClearedWays(sets[s])];
      }
      assert sets == Flush(old(Value())).sets;
    }
  }
}
