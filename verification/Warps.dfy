/** The round-robin warp picker, and why no ready warp waits longer than a full turn. */
module Warps {
  import opened Words

  /** Stall cycles left per warp, zero meaning ready, and where the next search starts. */
  datatype State = State(stall: seq<nat>, rr: nat, scheduled: nat, stalls: nat) {
    predicate Wrapped() {
      stall == [] || rr < |stall|
    }
  }

  /** The warp `k` places after position `rr`, going round. */
  function Place(n: nat, rr: nat, k: nat): nat
    requires n > 0
  {
    (rr + k) % n
  }

  /** The first ready warp among the `left` ones from position `rr + tried` on, or the number of warps. */
  function Scan(stall: seq<nat>, rr: nat, tried: nat): (id: nat)
    requires stall != [] && tried <= |stall|
    ensures id <= |stall| && (id < |stall| ==> stall[id] == 0)
    decreases |stall| - tried
  {
    if tried == |stall| then |stall|
    else
      var id := Place(|stall|, rr, tried);
      if stall[id] == 0 then id else Scan(stall, rr, tried + 1)
  }

  datatype Pick = Nobody | Warp(id: nat)

  function Schedule(s: State): (State, Pick) {
    if s.stall == [] then (s, Nobody)
    else
      var id := Scan(s.stall, s.rr, 0);
      if id == |s.stall| then (s, Nobody)
      else (s.(rr := Place(|s.stall|, id, 1), scheduled := s.scheduled + 1), Warp(id))
  }

  function Elapsed(stall: seq<nat>, cycles: nat): (r: seq<nat>)
    ensures |r| == |stall|
  {
    seq(|stall|, i requires 0 <= i < |stall| => if stall[i] > cycles then stall[i] - cycles else 0)
  }

  class WarpScheduler {
    var stall: seq<nat>
    var rr: nat
    var scheduled: nat
    var stalls: nat

    function Value(): State
      reads this
    {
      State(stall, rr, scheduled, stalls)
    }

    constructor (warps: nat)
      ensures Value() == State(seq(warps, _ => 0), 0, 0, 0)
    {
      stall, rr, scheduled, stalls := seq(warps, _ => 0), 0, 0, 0;
    }

    method ScheduleNext() returns (id: int)
      modifies this
      ensures var (s, pick) := Schedule(old(Value()));
        Value() == s && id == (match pick case Nobody => -1 case Warp(w) => w)
    {
      var i: nat := 0;
      while i < |stall|
        invariant i <= |stall| && stall == old(stall) && Value() == old(Value())
        invariant stall != [] ==> Scan(stall, rr, 0) == Scan(stall, rr, i)
      {
        var w := (rr + i) % |stall|;
        if stall[w] == 0 {
          rr := (w + 1) % |stall|;
          scheduled := scheduled + 1;
          return w;
        }
        i := i + 1;
      }
      return -1;
    }

    method MarkReady(id: int)
      modifies this`stall
      ensures stall == if 0 <= id < |old(stall)| then old(stall)[id := 0] else old(stall)
    {
      if 0 <= id < |stall| {
        stall := stall[id := 0];
      }
    }

    method MarkStalled(id: int, cycles: nat)
      modifies this`stall, this`stalls
      ensures stall == if 0 <= id < |old(stall)| then old(stall)[id := cycles] else old(stall)
      ensures stalls == old(stalls) + if 0 <= id < |stall| then 1 else 0
    {
      if 0 <= id < |stall| {
        stall := stall[id := cycles];
        stalls := stalls + 1;
      }
    }

    method Tick(cycles: nat)
      modifies this`stall
      ensures stall == Elapsed(old(stall), cycles)
    {
      for i := 0 to |stall|
        invariant |stall| == |old(stall)|
        invariant forall k :: 0 <= k < |stall| ==> stall[k] == if k < i then Elapsed(old(stall), cycles)[k] else old(stall)[k]
      {
        if stall[i] > 0 {
          stall := stall[i := if stall[i] > cycles then stall[i] - cycles else 0];
        }
      }
    }
  }

  // ---------------------------------------------------------------- one call

  /** How many places after the start of the search warp w stands. */
  function Distance(n: nat, rr: nat, w: nat): (d: nat)
    requires rr < n && w < n
    ensures d < n
  {
    if w >= rr then w - rr else w + n - rr
  }

  lemma Around(n: nat, rr: nat, k: nat)
    requires rr < n && k <= n
    ensures Place(n, rr, k) == if rr + k < n then rr + k else rr + k - n
    ensures k < n ==> Distance(n, rr, Place(n, rr, k)) == k
  {
    if rr + k < n {
      Quotient(rr + k, n, 0, rr + k);
    } else {
      Quotient(rr + k, n, 1, rr + k - n);
    }
  }

  /** The search returns the ready warp that stands first after the start. */
  lemma {:induction false} ScanFirst(stall: seq<nat>, rr: nat, tried: nat, w: nat)
    requires rr < |stall| && w < |stall| && stall[w] == 0 && tried <= Distance(|stall|, rr, w)
    ensures var id := Scan(stall, rr, tried);
      id < |stall| && Distance(|stall|, rr, id) <= Distance(|stall|, rr, w)
    decreases |stall| - tried
  {
    hide Place;
    var n := |stall|;
    Around(n, rr, tried);
    var id := Place(n, rr, tried);
    if Distance(n, rr, id) == Distance(n, rr, w) {
      SamePlace(n, rr, id, w);
    }
    if stall[id] != 0 {
      ScanFirst(stall, rr, tried + 1, w);
    }
  }

  lemma SamePlace(n: nat, rr: nat, v: nat, w: nat)
    requires rr < n && v < n && w < n && Distance(n, rr, v) == Distance(n, rr, w)
    ensures v == w
  {
  }

  /** A call picks nobody exactly when nobody is ready. */
  lemma NobodyIffNoneReady(s: State)
    requires s.Wrapped()
    ensures Schedule(s).1.Nobody? <==> forall w :: 0 <= w < |s.stall| ==> s.stall[w] > 0
  {
    if w :| 0 <= w < |s.stall| && s.stall[w] == 0 {
      ScanFirst(s.stall, s.rr, 0, w);
    }
  }

  /** If a ready warp is not the one picked, it stands strictly closer to the next start. */
  lemma Closer(s: State, w: nat)
    requires s.Wrapped() && w < |s.stall| && s.stall[w] == 0
    ensures var (s', pick) := Schedule(s);
      pick.Warp? && s'.rr < |s.stall| &&
      (pick.id != w ==> Distance(|s.stall|, s'.rr, w) < Distance(|s.stall|, s.rr, w))
  {
    ScanFirst(s.stall, s.rr, 0, w);
    var id := Scan(s.stall, s.rr, 0);
    Around(|s.stall|, id, 1);
    hide Scan, Place;
    if id != w {
      if Distance(|s.stall|, s.rr, id) == Distance(|s.stall|, s.rr, w) {
        SamePlace(|s.stall|, s.rr, id, w);
      }
    }
  }

  // ---------------------------------------------------------------- fairness

  /** The picks of successive calls; before call k the stall counters are set to stalls[k], whatever the
      stalls, wake-ups and ticks in between made of them. */
  function Picks(rr: nat, stalls: seq<seq<nat>>): (r: seq<Pick>)
    ensures |r| == |stalls|
    decreases |stalls|
  {
    if stalls == [] then []
    else
      var (s, pick) := Schedule(State(stalls[0], rr, 0, 0));
      [pick] + Picks(s.rr, stalls[1..])
  }

  lemma {:induction false} PickedWithin(n: nat, rr: nat, stalls: seq<seq<nat>>, w: nat)
    requires rr < n && w < n && (forall k :: 0 <= k < |stalls| ==> |stalls[k]| == n && stalls[k][w] == 0)
    requires Distance(n, rr, w) < |stalls|
    ensures Warp(w) in Picks(rr, stalls)[..Distance(n, rr, w) + 1]
    decreases |stalls|
  {
    hide Scan;
    var s := State(stalls[0], rr, 0, 0);
    Closer(s, w);
    var (s', pick) := Schedule(s);
    var rest := Picks(s'.rr, stalls[1..]);
    assert Picks(rr, stalls) == [pick] + rest;
    var d := Distance(n, rr, w);
    if pick == Warp(w) {
      assert Picks(rr, stalls)[..d + 1][0] == pick;
    } else {
      hide Schedule, Distance;
      PickedWithin(n, s'.rr, stalls[1..], w);
      var d' := Distance(n, s'.rr, w);
      var i :| 0 <= i < d' + 1 && rest[..d' + 1][i] == Warp(w);
      assert Picks(rr, stalls)[..d + 1][i + 1] == Warp(w);
    }
  }

  /** Fairness: among n warps, one that is ready at n consecutive calls is picked by one of them, whatever
      happens to the others in between. */
  lemma ReadyWarpIsPicked(n: nat, rr: nat, stalls: seq<seq<nat>>, w: nat)
    requires rr < n && w < n && |stalls| == n
    requires forall k :: 0 <= k < n ==> |stalls[k]| == n && stalls[k][w] == 0
    ensures Warp(w) in Picks(rr, stalls)
  {
    PickedWithin(n, rr, stalls, w);
    var d := Distance(n, rr, w);
    var i :| 0 <= i < d + 1 && Picks(rr, stalls)[..d + 1][i] == Warp(w);
    assert Picks(rr, stalls)[i] == Warp(w);
  }

  /** The bound is exact: with all warps ready from the start, the warp just before it is picked by the
      last of the n calls and by no earlier one. */
  lemma LastInTurn(n: nat, rr: nat, stalls: seq<seq<nat>>)
    requires rr < n && forall k :: 0 <= k < |stalls| ==> stalls[k] == seq(n, _ => 0)
    ensures forall k :: 0 <= k < |stalls| && k < n ==> Picks(rr, stalls)[k] == Warp((rr + k) % n)
  {
    forall k: nat | k < |stalls| && k < n
      ensures Picks(rr, stalls)[k] == Warp((rr + k) % n)
    {
      InTurn(n, rr, stalls, k);
      assert Place(n, rr, k) == (rr + k) % n;
    }
  }

  lemma {:induction false} InTurn(n: nat, rr: nat, stalls: seq<seq<nat>>, k: nat)
    requires rr < n && forall k :: 0 <= k < |stalls| ==> stalls[k] == seq(n, _ => 0)
    requires k < |stalls| && k < n
    ensures Picks(rr, stalls)[k] == Warp(Place(n, rr, k))
    decreases k
  {
    hide Scan, Place;
    AllReady(State(stalls[0], rr, 0, 0), n);
    Around(n, rr, k);
    Around(n, rr, 1);
    if k > 0 {
      hide Schedule;
      var rr' := Place(n, rr, 1);
      InTurn(n, rr', stalls[1..], k - 1);
      Around(n, rr', k - 1);
      assert Picks(rr, stalls)[k] == Picks(rr', stalls[1..])[k - 1];
    }
  }

  lemma AllReady(s: State, n: nat)
    requires n > 0 && s.rr < n && s.stall == seq(n, _ => 0)
    ensures Schedule(s).1 == Warp(s.rr) && Schedule(s).0.rr == Place(n, s.rr, 1)
  {
    var none: nat := 0;
    Around(n, s.rr, none);
    hide Place;
    assert Scan(s.stall, s.rr, none) == s.rr;
  }
}
