/** Timestamps refine recency lists: what a set holds is a prefix of the list of its lines by last use, and
    with that the larger of two caches always contains the smaller. */
module Lru {
  import opened Cache

  // ---------------------------------------------------------------- recency lists

  function IndexOf(r: seq<nat>, tag: nat): (i: nat)
    ensures i <= |r| && (i < |r| ==> r[i] == tag)
    ensures forall j :: 0 <= j < i ==> r[j] != tag
  {
    if r == [] || r[0] == tag then 0 else 1 + IndexOf(r[1..], tag)
  }

  /** Move to front, or put there. */
  function Touch(r: seq<nat>, tag: nat): seq<nat> {
    var i := IndexOf(r, tag);
    [tag] + r[..i] + if i < |r| then r[i + 1..] else []
  }

  ghost predicate Distinct(r: seq<nat>) {
    forall i, j :: 0 <= i < j < |r| ==> r[i] != r[j]
  }

  function Min(x: nat, y: nat): nat {
    if x <= y then x else y
  }

  // ---------------------------------------------------------------- the refinement of one set

  /** The ways listed in `order` are different ones and hold the head of `recency`. */
  ghost predicate Holds(ways: Ways, recency: seq<nat>, order: seq<nat>) {
    && Distinct(order) && |order| <= |recency|
    && forall i :: 0 <= i < |order| ==>
         order[i] < |ways| && ways[order[i]].valid && ways[order[i]].tag == recency[i]
  }

  /** Timestamps decrease along `order`. */
  ghost predicate Descending(ways: Ways, order: seq<nat>)
    requires forall i :: 0 <= i < |order| ==> order[i] < |ways|
  {
    forall i, j :: 0 <= i < j < |order| ==> ways[order[i]].lru > ways[order[j]].lru
  }

  /** The other ways are invalid and older than all in `order`; no timestamp is in the future. */
  ghost predicate Spare(ways: Ways, order: seq<nat>, now: nat)
    requires forall i :: 0 <= i < |order| ==> order[i] < |ways|
  {
    && (forall w :: 0 <= w < |ways| ==> ways[w].lru <= now)
    && (forall w :: 0 <= w < |ways| && w !in order ==> !ways[w].valid)
    && (forall w, i :: 0 <= w < |ways| && w !in order && 0 <= i < |order| ==> ways[w].lru < ways[order[i]].lru)
  }

  /** `order` lists the ways in use from most to least recent, and they hold the head of `recency`. */
  ghost predicate Tracks(ways: Ways, recency: seq<nat>, order: seq<nat>, now: nat) {
    && Distinct(recency) && |order| == Min(|ways|, |recency|)
    && Holds(ways, recency, order) && Descending(ways, order) && Spare(ways, order, now)
  }

  /** The ways hold a prefix of the recency list. */
  ghost predicate Refines(ways: Ways, recency: seq<nat>, now: nat) {
    exists order :: Tracks(ways, recency, order, now)
  }

  /** A set that is tracked holds exactly the head of its recency list. */
  lemma Residents(ways: Ways, recency: seq<nat>, now: nat, tag: nat)
    requires Refines(ways, recency, now)
    ensures SetHit(ways, tag) <==> tag in recency[..Min(|ways|, |recency|)]
  {
    var order :| Tracks(ways, recency, order, now);
    hide Descending;
    var head := recency[..|order|];
    forall i | 0 <= i < |order|
      ensures SetHit(ways, head[i])
    {
      assert ways[order[i]].valid && ways[order[i]].tag == recency[i];
    }
    if SetHit(ways, tag) {
      WayInOrder(ways, recency, order, now, FindWay(ways, tag));
    }
  }

  /** A valid way is listed, and its tag is in the head of the list. */
  lemma WayInOrder(ways: Ways, recency: seq<nat>, order: seq<nat>, now: nat, w: nat)
    requires Tracks(ways, recency, order, now) && w < |ways| && ways[w].valid
    ensures exists i :: 0 <= i < |order| && order[i] == w && recency[i] == ways[w].tag
    ensures ways[w].tag in recency[..|order|]
  {
    hide Descending;
    assert w in order;
    var i :| 0 <= i < |order| && order[i] == w;
    assert recency[..|order|][i] == ways[w].tag;
  }

  lemma Pigeonhole(order: seq<nat>, n: nat)
    requires Distinct(order) && forall i :: 0 <= i < |order| ==> order[i] < n
    ensures |order| <= n
    ensures |order| == n ==> forall w :: 0 <= w < n ==> w in order
    ensures |order| < n ==> exists w :: 0 <= w < n && w !in order
  {
    var used := Members(order);
    var all := Below(n);
    SizeOf(order);
    assert used <= all;
    SubsetSize(used, all);
    if |order| == n {
      assert used == all by {
        if used != all { ProperSubset(used, all); }
      }
      forall w | 0 <= w < n
        ensures w in order
      {
        assert w in used;
      }
    }
    if |order| < n {
      assert used != all;
      var w :| w in all && w !in used;
      assert w !in order;
    }
  }

  ghost function Below(n: nat): (s: set<nat>)
    ensures |s| == n && forall w: nat :: w in s <==> w < n
  {
    if n == 0 then {} else Below(n - 1) + {n - 1}
  }

  ghost function Members(order: seq<nat>): set<nat> {
    set i | 0 <= i < |order| :: order[i]
  }

  lemma MembersSnoc(order: seq<nat>, last: nat)
    ensures Members(order + [last]) == Members(order) + {last}
  {
    var longer := order + [last];
    forall x | x in Members(order)
      ensures x in Members(longer)
    {
      var i :| 0 <= i < |order| && order[i] == x;
      assert longer[i] == x;
    }
    assert longer[|order|] == last;
  }

  lemma {:induction false} SizeOf(order: seq<nat>)
    requires Distinct(order)
    ensures |Members(order)| == |order|
  {
    if order != [] {
      var init, last := order[..|order| - 1], order[|order| - 1];
      SizeOf(init);
      assert order == init + [last];
      MembersSnoc(init, last);
      assert last !in Members(init);
    }
  }

  lemma {:induction false} SubsetSize(s: set<nat>, t: set<nat>)
    requires s <= t
    ensures |s| <= |t|
  {
    assert t == s + (t - s);
  }

  lemma ProperSubset(s: set<nat>, t: set<nat>)
    requires s <= t && s != t
    ensures |s| < |t|
  {
    assert t == s + (t - s);
    assert t - s != {};
  }

  // ---------------------------------------------------------------- one access

  /** On a hit the way found moves to the front of the order. */
  lemma HitTracks(ways: Ways, recency: seq<nat>, order: seq<nat>, now: nat, tag: nat, isWrite: bool)
    requires Tracks(ways, recency, order, now) && SetHit(ways, tag)
    ensures Refines(SetAccess(ways, tag, isWrite, now + 1), Touch(recency, tag), now + 1)
  {
    var w := FindWay(ways, tag);
    WayInOrder(ways, recency, order, now, w);
    var i :| 0 <= i < |order| && order[i] == w && recency[i] == ways[w].tag;
    TouchIsMoved(recency, i);
    hide Touch, Moved, FindWay, Holds, Descending, Spare;
    MovedTracks(ways, recency, order, now, i, Touched(ways[w], isWrite, now + 1), Touch(recency, tag));
  }

  lemma TouchIsMoved(r: seq<nat>, i: nat)
    requires Distinct(r) && i < |r|
    ensures var m := Touch(r, r[i]);
      && Distinct(m) && |m| == |r| && m[0] == r[i]
      && (forall j :: 0 < j <= i ==> m[j] == r[j - 1]) && (forall j :: i < j < |r| ==> m[j] == r[j])
  {
    IndexAt(r, i);
    MovedElements(r, i);
    assert Touch(r, r[i]) == Moved(r, i);
  }

  lemma IndexAt(r: seq<nat>, i: nat)
    requires Distinct(r) && i < |r|
    ensures IndexOf(r, r[i]) == i
  {
  }

  function Moved(order: seq<nat>, i: nat): seq<nat>
    requires i < |order|
  {
    [order[i]] + order[..i] + order[i + 1..]
  }

  lemma MovedElements(order: seq<nat>, i: nat)
    requires i < |order|
    ensures |Moved(order, i)| == |order| && Moved(order, i)[0] == order[i]
    ensures forall j :: 0 < j <= i ==> Moved(order, i)[j] == order[j - 1]
    ensures forall j :: i < j < |order| ==> Moved(order, i)[j] == order[j]
    ensures forall w :: w in Moved(order, i) <==> w in order
    ensures Distinct(order) ==> Distinct(Moved(order, i))
  {
    var m := Moved(order, i);
    forall w | w in order
      ensures w in m
    {
      var j :| 0 <= j < |order| && order[j] == w;
      if j < i {
        assert m[j + 1] == w;
      } else if j == i {
        assert m[0] == w;
      } else {
        assert m[j] == w;
      }
    }
  }

  /** Where element k of the moved order, which is not its first, stood before. */
  function Before(i: nat, k: nat): nat
    requires k > 0
  {
    if k <= i then k - 1 else k
  }

  lemma MovedFrom(order: seq<nat>, i: nat, k: nat)
    requires Distinct(order) && i < |order| && 0 < k < |order|
    ensures Before(i, k) < |order| && Moved(order, i)[k] == order[Before(i, k)]
    ensures Before(i, k) != i && order[Before(i, k)] != order[i]
  {
    MovedElements(order, i);
  }

  lemma MovedDescending(ways: Ways, order: seq<nat>, now: nat, i: nat, l: Line)
    requires Distinct(order) && i < |order| && (forall k :: 0 <= k < |order| ==> order[k] < |ways|)
    requires Descending(ways, order) && (forall w :: 0 <= w < |ways| ==> ways[w].lru <= now) && l.lru == now + 1
    ensures forall k :: 0 <= k < |order| ==> Moved(order, i)[k] < |ways|
    ensures Descending(ways[order[i] := l], Moved(order, i))
  {
    MovedElements(order, i);
    hide Moved, Distinct;
    var ways', order' := ways[order[i] := l], Moved(order, i);
    forall j, k | 0 <= j < k < |order'|
      ensures ways'[order'[j]].lru > ways'[order'[k]].lru
    {
      MovedFrom(order, i, k);
      if j > 0 {
        MovedFrom(order, i, j);
        assert Before(i, j) < Before(i, k);
      }
    }
  }

  lemma MovedSpare(ways: Ways, order: seq<nat>, now: nat, i: nat, l: Line)
    requires Distinct(order) && i < |order| && (forall k :: 0 <= k < |order| ==> order[k] < |ways|)
    requires Spare(ways, order, now) && l.lru == now + 1
    ensures forall k :: 0 <= k < |order| ==> Moved(order, i)[k] < |ways|
    ensures Spare(ways[order[i] := l], Moved(order, i), now + 1)
  {
    MovedElements(order, i);
    hide Moved, Distinct;
    var ways', order' := ways[order[i] := l], Moved(order, i);
    forall w, k | 0 <= w < |ways'| && w !in order' && 0 <= k < |order'|
      ensures ways'[w].lru < ways'[order'[k]].lru
    {
      assert w !in order;
      assert w != order[i] && ways'[w] == ways[w];
      if k > 0 {
        MovedFrom(order, i, k);
        assert ways[w].lru < ways[order[Before(i, k)]].lru;
      }
    }
  }

  /** A listed way that is refreshed or refilled moves to the front, together with its tag. */
  lemma MovedTracks(ways: Ways, recency: seq<nat>, order: seq<nat>, now: nat, i: nat, l: Line, recency': seq<nat>)
    requires Tracks(ways, recency, order, now) && i < |order|
    requires l.valid && l.lru == now + 1
    requires Distinct(recency') && |order| == Min(|ways|, |recency'|) && recency'[0] == l.tag
    requires forall j :: 0 < j <= i ==> recency'[j] == recency[j - 1]
    requires forall j :: i < j < |order| ==> recency'[j] == recency[j]
    ensures Tracks(ways[order[i] := l], recency', Moved(order, i), now + 1)
  {
    MovedElements(order, i);
    MovedDescending(ways, order, now, i, l);
    MovedSpare(ways, order, now, i, l);
    hide Moved, Descending, Spare;
    var ways', order' := ways[order[i] := l], Moved(order, i);
    forall k | 0 <= k < |order'|
      ensures order'[k] < |ways'| && ways'[order'[k]].valid && ways'[order'[k]].tag == recency'[k]
    {
      if k > 0 {
        MovedFrom(order, i, k);
      }
    }
  }

  lemma TouchDistinct(r: seq<nat>, tag: nat)
    requires Distinct(r)
    ensures Distinct(Touch(r, tag))
    ensures |Touch(r, tag)| == if tag in r then |r| else |r| + 1
    ensures Touch(r, tag)[0] == tag
    ensures forall j :: 0 < j <= IndexOf(r, tag) ==> Touch(r, tag)[j] == r[j - 1]
  {
    var i := IndexOf(r, tag);
    if i < |r| {
      MovedElements(r, i);
      assert Touch(r, tag) == Moved(r, i);
    } else {
      assert tag !in r;
    }
  }

  /** While ways are free, the victim of a miss is one of them. */
  lemma FreeVictim(ways: Ways, recency: seq<nat>, order: seq<nat>, now: nat)
    requires Tracks(ways, recency, order, now) && |order| < |ways|
    ensures Oldest(ways, |ways|) !in order
  {
    Pigeonhole(order, |ways|);
    var w :| 0 <= w < |ways| && w !in order;
    var v := Oldest(ways, |ways|);
    forall i | 0 <= i < |order|
      ensures order[i] != v
    {
      assert ways[w].lru < ways[order[i]].lru;
    }
  }

  /** Once all are used, the victim is the last of the order. */
  lemma LastVictim(ways: Ways, recency: seq<nat>, order: seq<nat>, now: nat)
    requires Tracks(ways, recency, order, now) && |order| == |ways| && ways != []
    ensures Oldest(ways, |ways|) == order[|order| - 1]
  {
    Pigeonhole(order, |ways|);
    var v, last := Oldest(ways, |ways|), |order| - 1;
    assert v in order;
    forall i | 0 <= i < last
      ensures order[i] != v
    {
      assert ways[order[i]].lru > ways[order[last]].lru;
    }
  }

  lemma MissAbsent(ways: Ways, recency: seq<nat>, order: seq<nat>, now: nat, tag: nat)
    requires Tracks(ways, recency, order, now) && !SetHit(ways, tag)
    ensures IndexOf(recency, tag) >= |order|
  {
    forall i | 0 <= i < |order|
      ensures recency[i] != tag
    {
      assert ways[order[i]].valid && ways[order[i]].tag == recency[i];
    }
  }

  /** With ways to spare a miss fills one of them. */
  lemma FreeMissTracks(ways: Ways, recency: seq<nat>, order: seq<nat>, now: nat, tag: nat, isWrite: bool)
    requires Tracks(ways, recency, order, now) && !SetHit(ways, tag) && |order| < |ways|
    ensures Refines(SetAccess(ways, tag, isWrite, now + 1), Touch(recency, tag), now + 1)
  {
    FreeVictim(ways, recency, order, now);
    MissAbsent(ways, recency, order, now, tag);
    TouchDistinct(recency, tag);
    var v := Oldest(ways, |ways|);
    assert Touch(recency, tag) == [tag] + recency;
    hide Touch, IndexOf;
    FilledTracks(ways, recency, order, now, v, Line(true, isWrite, tag, now + 1));
  }

  /** A spare way that is filled goes to the front of the order: timestamps ... */
  lemma FilledDescending(ways: Ways, order: seq<nat>, now: nat, v: nat, l: Line)
    requires v < |ways| && v !in order && (forall k :: 0 <= k < |order| ==> order[k] < |ways|)
    requires Descending(ways, order) && (forall w :: 0 <= w < |ways| ==> ways[w].lru <= now) && l.lru == now + 1
    ensures forall k :: 0 <= k < |order| + 1 ==> ([v] + order)[k] < |ways|
    ensures Descending(ways[v := l], [v] + order)
  {
    var ways', order' := ways[v := l], [v] + order;
    forall i, j | 0 <= i < j < |order'|
      ensures ways'[order'[i]].lru > ways'[order'[j]].lru
    {
      assert order'[j] == order[j - 1] && order[j - 1] != v;
      if i > 0 {
        assert order'[i] == order[i - 1] && order[i - 1] != v;
      }
    }
  }

  /** ... unused ways ... */
  lemma FilledSpare(ways: Ways, order: seq<nat>, now: nat, v: nat, l: Line)
    requires v < |ways| && v !in order && (forall k :: 0 <= k < |order| ==> order[k] < |ways|)
    requires Spare(ways, order, now) && l.lru == now + 1
    ensures forall k :: 0 <= k < |order| + 1 ==> ([v] + order)[k] < |ways|
    ensures Spare(ways[v := l], [v] + order, now + 1)
  {
    var ways', order' := ways[v := l], [v] + order;
    assert order'[0] == v;
    forall w | w !in order'
      ensures w !in order && w != v
    {
      assert forall k :: 0 <= k < |order| ==> order'[k + 1] == order[k];
    }
    forall w, i | 0 <= w < |ways'| && w !in order' && 0 <= i < |order'|
      ensures ways'[w].lru < ways'[order'[i]].lru
    {
      if i > 0 {
        assert order'[i] == order[i - 1] && order[i - 1] != v;
        assert ways[w].lru < ways[order[i - 1]].lru;
      }
    }
  }

  /** ... and contents. */
  lemma FilledTracks(ways: Ways, recency: seq<nat>, order: seq<nat>, now: nat, v: nat, l: Line)
    requires Tracks(ways, recency, order, now) && |order| < |ways| && v < |ways| && v !in order
    requires l.valid && l.lru == now + 1 && Distinct([l.tag] + recency)
    ensures Tracks(ways[v := l], [l.tag] + recency, [v] + order, now + 1)
  {
    FilledDescending(ways, order, now, v, l);
    FilledSpare(ways, order, now, v, l);
    hide Descending, Spare;
    var ways', order', recency' := ways[v := l], [v] + order, [l.tag] + recency;
    forall i | 0 <= i < |order'|
      ensures order'[i] < |ways'| && ways'[order'[i]].valid && ways'[order'[i]].tag == recency'[i]
    {
      if i > 0 {
        assert order'[i] == order[i - 1] && recency'[i] == recency[i - 1] && order[i - 1] != v;
      }
    }
    forall i, j | 0 <= i < j < |order'|
      ensures order'[i] != order'[j]
    {
      assert order'[j] == order[j - 1] && order[j - 1] in order;
      if i > 0 {
        assert order'[i] == order[i - 1];
      }
    }
  }

  /** With all ways in use a miss refills the least recent one. */
  lemma FullMissTracks(ways: Ways, recency: seq<nat>, order: seq<nat>, now: nat, tag: nat, isWrite: bool)
    requires Tracks(ways, recency, order, now) && !SetHit(ways, tag) && |order| == |ways| && ways != []
    ensures Refines(SetAccess(ways, tag, isWrite, now + 1), Touch(recency, tag), now + 1)
  {
    LastVictim(ways, recency, order, now);
    MissAbsent(ways, recency, order, now, tag);
    TouchDistinct(recency, tag);
    hide Touch, IndexOf;
    MovedTracks(ways, recency, order, now, |order| - 1, Line(true, isWrite, tag, now + 1), Touch(recency, tag));
  }

  /** One access of a tracked set: the recency list moves its line to the front and still describes it. */
  lemma AccessRefines(ways: Ways, recency: seq<nat>, now: nat, tag: nat, isWrite: bool)
    requires Refines(ways, recency, now) && ways != []
    ensures Refines(SetAccess(ways, tag, isWrite, now + 1), Touch(recency, tag), now + 1)
  {
    var order :| Tracks(ways, recency, order, now);
    if SetHit(ways, tag) {
      HitTracks(ways, recency, order, now, tag, isWrite);
    } else if |order| < |ways| {
      FreeMissTracks(ways, recency, order, now, tag, isWrite);
    } else {
      FullMissTracks(ways, recency, order, now, tag, isWrite);
    }
  }

  lemma LaterRefines(ways: Ways, recency: seq<nat>, now: nat, later: nat)
    requires Refines(ways, recency, now) && now <= later
    ensures Refines(ways, recency, later)
  {
    var order :| Tracks(ways, recency, order, now);
    assert Tracks(ways, recency, order, later);
  }

  /** A flushed set starts over with an empty list, its old timestamps notwithstanding. */
  lemma FlushRefines(ways: Ways, recency: seq<nat>, now: nat)
    requires Refines(ways, recency, now)
    ensures Refines(ClearedWays(ways), [], now)
  {
    var order :| Tracks(ways, recency, order, now);
    assert Tracks(ClearedWays(ways), [], [], now);
  }

  // ---------------------------------------------------------------- traces

  datatype Event = Touches(addr: nat, isWrite: bool) | FlushAll

  function Apply(c: State, e: Event): (r: State)
    requires c.Shaped()
    ensures r.Shaped() && |r.sets| == |c.sets| && r.cfg == c.cfg
  {
    match e
    case Touches(addr, isWrite) => Access(c, addr, isWrite)
    case FlushAll => Flush(c)
  }

  function After(cfg: Config, trace: seq<Event>): (r: State)
    requires cfg.Usable()
    ensures r.Shaped() && |r.sets| == cfg.SetCount() && r.cfg == cfg
  {
    if trace == [] then Configured(cfg) else Apply(After(cfg, trace[..|trace| - 1]), trace[|trace| - 1])
  }

  /** The lines of set `s` by last use since the last flush: what a trace does to any cache of this geometry. */
  function Recency(lineBytes: nat, sets: nat, s: nat, trace: seq<Event>): seq<nat>
    requires lineBytes > 0 && sets > 0
  {
    if trace == [] then []
    else
      var before := Recency(lineBytes, sets, s, trace[..|trace| - 1]);
      match trace[|trace| - 1]
      case FlushAll => []
      case Touches(addr, _) => if addr / lineBytes % sets == s then Touch(before, addr / lineBytes) else before
  }

  lemma InitialRefines(assoc: nat)
    ensures Refines(seq(assoc, _ => EMPTY_LINE), [], 0)
  {
    assert Tracks(seq(assoc, _ => EMPTY_LINE), [], [], 0);
  }

  // What one access does to each set.

  lemma AccessSets(c: State, addr: nat, isWrite: bool, s: nat)
    requires c.Shaped() && s < |c.sets|
    ensures Access(c, addr, isWrite).sets[s] ==
            if LineOf(c, addr) % |c.sets| == s then SetAccess(c.sets[s], LineOf(c, addr), isWrite, c.tick + 1)
            else c.sets[s]
  {
    hide SetAccess, SetHit, SetWritesBack, LineOf;
  }

  lemma AfterTouch(cfg: Config, trace: seq<Event>)
    requires cfg.Usable() && trace != [] && trace[|trace| - 1].Touches?
    ensures var e := trace[|trace| - 1];
      After(cfg, trace) == Access(After(cfg, trace[..|trace| - 1]), e.addr, e.isWrite)
  {
    hide Access, Configured;
  }

  lemma AfterAccess(cfg: Config, trace: seq<Event>, s: nat)
    requires cfg.Usable() && trace != [] && trace[|trace| - 1].Touches? && s < cfg.SetCount()
    ensures var c, e := After(cfg, trace[..|trace| - 1]), trace[|trace| - 1];
      After(cfg, trace).sets[s] ==
        if e.addr / cfg.lineBytes % cfg.SetCount() == s
        then SetAccess(c.sets[s], e.addr / cfg.lineBytes, e.isWrite, c.tick + 1) else c.sets[s]
  {
    AfterTouch(cfg, trace);
    var c, e := After(cfg, trace[..|trace| - 1]), trace[|trace| - 1];
    AccessSets(c, e.addr, e.isWrite, s);
    hide SetAccess, Access, After, Configured;
  }

  lemma {:induction false} TraceRefines(cfg: Config, trace: seq<Event>, s: nat)
    requires cfg.Usable() && s < cfg.SetCount()
    ensures Refines(After(cfg, trace).sets[s], Recency(cfg.lineBytes, cfg.SetCount(), s, trace), After(cfg, trace).tick)
  {
    hide Refines, SetAccess, Touch, ClearedWays;
    if trace == [] {
      InitialRefines(cfg.assoc);
    } else {
      var init := trace[..|trace| - 1];
      TraceRefines(cfg, init, s);
      var c := After(cfg, init);
      var r := Recency(cfg.lineBytes, cfg.SetCount(), s, init);
      match trace[|trace| - 1]
      case FlushAll =>
        FlushRefines(c.sets[s], r, c.tick);
      case Touches(addr, isWrite) =>
        AfterTouch(cfg, trace);
        AfterAccess(cfg, trace, s);
        hide After;
        AccessRefines(c.sets[s], r, c.tick, addr / cfg.lineBytes, isWrite);
        LaterRefines(c.sets[s], r, c.tick, c.tick + 1);
    }
  }

  /** LRU refinement: after any trace from a configured cache, an access hits exactly when its line is among
      the first `assoc` lines of its set's recency list since the last flush. */
  lemma LruRefinement(cfg: Config, trace: seq<Event>, addr: nat)
    requires cfg.Usable() && cfg.SetCount() > 0
    ensures var line := addr / cfg.lineBytes;
      var recency := Recency(cfg.lineBytes, cfg.SetCount(), line % cfg.SetCount(), trace);
      Hits(After(cfg, trace), addr) <==> line in recency[..Min(cfg.assoc, |recency|)]
  {
    hide Refines, Recency;
    var line := addr / cfg.lineBytes;
    var c := After(cfg, trace);
    var s := line % cfg.SetCount();
    TraceRefines(cfg, trace, s);
    Residents(c.sets[s], Recency(cfg.lineBytes, cfg.SetCount(), s, trace), c.tick, line);
  }

  // ---------------------------------------------------------------- stack inclusion

  /** Same lines, same number of sets, at least as many ways. */
  predicate Wider(small: Config, large: Config) {
    && small.Usable() && large.Usable() && small.lineBytes == large.lineBytes
    && small.SetCount() == large.SetCount() && small.assoc <= large.assoc
  }

  lemma PrefixIn(r: seq<nat>, m: nat, n: nat, x: nat)
    requires m <= n <= |r| && x in r[..m]
    ensures x in r[..n]
  {
    var i :| 0 <= i < m && r[..m][i] == x;
    assert r[..n][i] == x;
  }

  /** Whatever hits in the smaller cache hits in the larger one, after every trace. */
  lemma StackInclusion(small: Config, large: Config, trace: seq<Event>, addr: nat)
    requires Wider(small, large)
    ensures Hits(After(small, trace), addr) ==> Hits(After(large, trace), addr)
  {
    hide Hits, Recency;
    if small.SetCount() > 0 {
      LruRefinement(small, trace, addr);
      LruRefinement(large, trace, addr);
      var line := addr / small.lineBytes;
      var recency := Recency(small.lineBytes, small.SetCount(), line % small.SetCount(), trace);
      if Hits(After(small, trace), addr) {
        PrefixIn(recency, Min(small.assoc, |recency|), Min(large.assoc, |recency|), line);
      }
    } else {
      NoSetsHit(large, trace, addr);
    }
  }

  lemma NoSetsHit(cfg: Config, trace: seq<Event>, addr: nat)
    requires cfg.Usable() && cfg.SetCount() == 0
    ensures Hits(After(cfg, trace), addr)
  {
  }

  /** Hence on every trace the larger cache has at least the hits and at most the misses of the smaller. */
  lemma {:induction false} LargerNeverMissesMore(small: Config, large: Config, trace: seq<Event>)
    requires Wider(small, large)
    ensures var a, b := After(small, trace), After(large, trace);
      a.hits <= b.hits && b.misses <= a.misses && a.hits + a.misses == b.hits + b.misses
  {
    hide SetAccess, FindWay, SetWritesBack, ClearedWays;
    if trace != [] {
      var init := trace[..|trace| - 1];
      LargerNeverMissesMore(small, large, init);
      match trace[|trace| - 1]
      case FlushAll =>
      case Touches(addr, _) => StackInclusion(small, large, init, addr);
    }
  }
}
