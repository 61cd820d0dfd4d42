/** The synchronous interconnect: a bounded FIFO of in-flight transactions with backpressure. */
module Fabric {
  import opened Words

  datatype Config = Config(dataWidth: word, latency: word, maxOutstanding: word, burstLen: word) {
    /** Bytes moved by one full burst, in 32-bit arithmetic. */
    function BurstBytes(): word {
      Wrap(dataWidth * burstLen)
    }

    predicate Usable() {
      BurstBytes() > 0
    }

    function Bursts(bytes: word): nat
      requires Usable()
    {
      Wrap(bytes + BurstBytes() - 1) / BurstBytes()
    }
  }

  datatype Transaction = Transaction(addr: word, bytes: word, isWrite: bool, issue: nat, complete: nat)

  datatype State = State(
    cfg: Config, pending: seq<Transaction>, cur: nat, completed: nat, stalled: nat)

  function Empty(cfg: Config): State {
    State(cfg, [], 0, 0, 0)
  }

  // ---------------------------------------------------------------- operations on values

  function Stamped(cfg: Config, t: Transaction, cycle: nat): Transaction
    requires cfg.Usable()
  {
    t.(issue := cycle, complete := cycle + cfg.latency + cfg.Bursts(t.bytes))
  }

  predicate Full(f: State) {
    |f.pending| >= f.cfg.maxOutstanding
  }

  function Issue(f: State, t: Transaction, cycle: nat): State
    requires f.cfg.Usable()
  {
    if Full(f) then f.(stalled := f.stalled + 1)
    else f.(pending := f.pending + [Stamped(f.cfg, t, cycle)], cur := cycle)
  }

  /** How many transactions at the head of the queue are due by `now`. */
  function Due(pending: seq<Transaction>, now: nat): (n: nat)
    ensures n <= |pending|
    ensures forall k :: 0 <= k < n ==> pending[k].complete <= now
    ensures n < |pending| ==> pending[n].complete > now
  {
    if pending == [] || pending[0].complete > now then 0 else 1 + Due(pending[1..], now)
  }

  function Tick(f: State, cycles: nat): State {
    var now := f.cur + cycles;
    var n := Due(f.pending, now);
    f.(pending := f.pending[n..], cur := now, completed := f.completed + n)
  }

  // ---------------------------------------------------------------- histories

  datatype Event = Offer(t: Transaction, cycle: nat) | Advance(cycles: nat)

  /** A fabric together with what an observer of its ports has seen since it was empty. */
  datatype History = History(
    fabric: State, accepted: seq<Transaction>, finished: seq<Transaction>, refused: nat, offers: nat)

  function Observe(h: History, e: Event): History
    requires h.fabric.cfg.Usable()
  {
    match e
    case Offer(t, cycle) =>
      if Full(h.fabric) then
        h.(fabric := Issue(h.fabric, t, cycle), refused := h.refused + 1, offers := h.offers + 1)
      else
        h.(fabric := Issue(h.fabric, t, cycle),
           accepted := h.accepted + [Stamped(h.fabric.cfg, t, cycle)], offers := h.offers + 1)
    case Advance(cycles) =>
      var n := Due(h.fabric.pending, h.fabric.cur + cycles);
      h.(fabric := Tick(h.fabric, cycles), finished := h.finished + h.fabric.pending[..n])
  }

  function Watch(cfg: Config, events: seq<Event>): (h: History)
    requires cfg.Usable()
    ensures h.fabric.cfg == cfg
  {
    if events == [] then History(Empty(cfg), [], [], 0, 0)
    else Observe(Watch(cfg, events[..|events| - 1]), events[|events| - 1])
  }

  /** Conservation, boundedness and FIFO order over every history. */
  lemma {:induction false} FifoConservation(cfg: Config, events: seq<Event>)
    requires cfg.Usable()
    ensures var h := Watch(cfg, events);
      && h.finished + h.fabric.pending == h.accepted
      && |h.fabric.pending| <= cfg.maxOutstanding
      && h.fabric.completed == |h.finished|
      && h.fabric.stalled == h.refused
      && |h.accepted| + h.refused == h.offers
  {
    hide Due, Stamped;
    if events != [] {
      var before := events[..|events| - 1];
      FifoConservation(cfg, before);
      var h := Watch(cfg, before);
      match events[|events| - 1]
      case Offer(t, cycle) =>
        assert h.finished + (h.fabric.pending + [Stamped(cfg, t, cycle)])
            == (h.finished + h.fabric.pending) + [Stamped(cfg, t, cycle)];
      case Advance(cycles) =>
        var n := Due(h.fabric.pending, h.fabric.cur + cycles);
        assert h.fabric.pending == h.fabric.pending[..n] + h.fabric.pending[n..];
        assert (h.finished + h.fabric.pending[..n]) + h.fabric.pending[n..]
            == h.finished + (h.fabric.pending[..n] + h.fabric.pending[n..]);
    }
  }

  /** A queue all of whose deadlines have passed is emptied by one tick, wherever they sit in it. */
  lemma {:induction false} DueAll(pending: seq<Transaction>, now: nat)
    requires forall k :: 0 <= k < |pending| ==> pending[k].complete <= now
    ensures Due(pending, now) == |pending|
  {
    if pending != [] {
      DueAll(pending[1..], now);
    }
  }

  /** Retiring a due head first does not change what a tick leaves behind. */
  lemma PopHead(f: State)
    requires f.pending != [] && f.pending[0].complete <= f.cur
    ensures Tick(f.(pending := f.pending[1..], completed := f.completed + 1), 0) == Tick(f, 0)
  {
    var n := Due(f.pending[1..], f.cur);
    assert f.pending[1..][n..] == f.pending[1 + n..];
  }

  /** An unfinished head blocks everything behind it, due or not. */
  lemma HeadOfLineBlocking(f: State, cycles: nat)
    requires f.pending != []
    ensures Tick(f, cycles).pending == f.pending <==> f.pending[0].complete > f.cur + cycles
  {
    var n := Due(f.pending, f.cur + cycles);
    if n > 0 {
      assert |f.pending[n..]| < |f.pending|;
    } else {
      assert f.pending[n..] == f.pending;
    }
  }

  // ---------------------------------------------------------------- the object

  class Interconnect {
    var cfg: Config
    var pending: seq<Transaction>
    var curCycle: nat
    var completed: nat
    var stalled: nat

    function Value(): State
      reads this
    {
      State(cfg, pending, curCycle, completed, stalled)
    }

    constructor (c: Config)
      ensures Value() == Empty(c)
    {
      cfg, pending, curCycle, completed, stalled := c, [], 0, 0, 0;
    }

    method IssueTransaction(t: Transaction, cycle: nat) returns (accepted: bool)
      requires cfg.Usable()
      modifies this
      ensures Value() == Issue(old(Value()), t, cycle)
      ensures accepted <==> old(|pending|) < cfg.maxOutstanding
    {
      if |pending| >= cfg.maxOutstanding {
        stalled := stalled + 1;
        return false;
      }
      var bursts := Wrap(t.bytes + Wrap(cfg.dataWidth * cfg.burstLen) - 1) / Wrap(cfg.dataWidth * cfg.burstLen);
      var nt := t.(issue := cycle, complete := cycle + cfg.latency + bursts);
      pending := pending + [nt];
      curCycle := cycle;
      return true;
    }

    method Advance(cycles: nat)
      modifies this
      ensures Value() == Tick(old(Value()), cycles) && cfg == old(cfg)
    {
      curCycle := curCycle + cycles;
      while pending != [] && pending[0].complete <= curCycle
        invariant Tick(Value(), 0) == Tick(old(Value()), cycles)
        decreases |pending|
      {
        PopHead(Value());
        pending := pending[1..];
        completed := completed + 1;
      }
    }
  }
}
