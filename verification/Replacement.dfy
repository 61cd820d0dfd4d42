/** The TLB is described as LRU and is a ring: which pages it keeps, where that differs from least recent use, and
    exactly when the two would evict the same page. */
module Replacement {
  import opened Words
  import opened Mmu
  import Lru
  import Paging
  import opened RingTlb

  // ---------------------------------------------------------------- the two policies on traces of pages

  /** The last up to 32 fills, oldest first. */
  function Recent(fills: seq<nat>): (r: seq<nat>)
    ensures |r| == Lru.Min(32, |fills|)
  {
    fills[|fills| - Lru.Min(32, |fills|)..]
  }

  /** The pages a ring fills, in order: those not among its last 32 fills. */
  function Filled(trace: seq<nat>): seq<nat> {
    if trace == [] then []
    else
      var before, p := Filled(trace[..|trace| - 1]), trace[|trace| - 1];
      if p in Recent(before) then before else before + [p]
  }

  /** What the ring holds, next to be evicted first. */
  function Resident(trace: seq<nat>): seq<nat> {
    Recent(Filled(trace))
  }

  /** The pages used, by last use; LRU would hold the first 32. */
  function Used(trace: seq<nat>): seq<nat> {
    if trace == [] then [] else Lru.Touch(Used(trace[..|trace| - 1]), trace[|trace| - 1])
  }

  /** When page p was last used: one more than its last index, zero if never. */
  function LastUse(trace: seq<nat>, p: nat): (r: nat)
    ensures r <= |trace| && (r > 0 ==> trace[r - 1] == p)
  {
    if trace == [] then 0
    else if trace[|trace| - 1] == p then |trace|
    else LastUse(trace[..|trace| - 1], p)
  }

  /** The list of pages by last use is ordered by last use, and complete. */
  lemma {:induction false} UsedOrder(trace: seq<nat>)
    ensures Lru.Distinct(Used(trace)) && forall p :: p in Used(trace) ==> LastUse(trace, p) > 0
    ensures forall i, j :: 0 <= i < j < |Used(trace)| ==> LastUse(trace, Used(trace)[i]) > LastUse(trace, Used(trace)[j])
  {
    if trace != [] {
      var init, p := trace[..|trace| - 1], trace[|trace| - 1];
      UsedOrder(init);
      var before, now := Used(init), Used(trace);
      Lru.TouchDistinct(before, p);
      forall j | 0 < j < |now|
        ensures TouchedFrom(before, p, j) < |before| && now[j] == before[TouchedFrom(before, p, j)] && now[j] != p
        ensures LastUse(trace, now[j]) == LastUse(init, now[j])
      {
        TouchedElement(before, p, j);
      }
      forall i, j | 0 <= i < j < |now|
        ensures LastUse(trace, now[i]) > LastUse(trace, now[j])
      {
        if i > 0 {
          assert TouchedFrom(before, p, i) < TouchedFrom(before, p, j);
        }
      }
    }
  }

  /** Where element j > 0 of the list stood before p was touched. */
  function TouchedFrom(before: seq<nat>, p: nat, j: nat): nat
    requires j > 0
  {
    if j <= Lru.IndexOf(before, p) then j - 1 else j
  }

  lemma TouchedElement(before: seq<nat>, p: nat, j: nat)
    requires Lru.Distinct(before) && 0 < j < |Lru.Touch(before, p)|
    ensures TouchedFrom(before, p, j) < |before|
    ensures Lru.Touch(before, p)[j] == before[TouchedFrom(before, p, j)] && Lru.Touch(before, p)[j] != p
  {
  }

  // ---------------------------------------------------------------- the same victim

  /** With the same 32 pages resident, ring and LRU evict the same page next exactly when the page filled first has
      not been used since any of the others. */
  lemma SameVictimIff(trace: seq<nat>)
    requires |Resident(trace)| == 32 && |Used(trace)| >= 32
    requires forall p :: p in Resident(trace) <==> p in Used(trace)[..32]
    ensures Resident(trace)[0] == Used(trace)[31] <==>
      forall p :: p in Resident(trace) && p != Resident(trace)[0] ==>
        LastUse(trace, p) > LastUse(trace, Resident(trace)[0])
  {
    UsedOrder(trace);
    var ring, used := Resident(trace), Used(trace);
    hide Resident, Used, LastUse;
    assert ring[0] in ring && used[..32][31] == used[31];
    var i :| 0 <= i < 32 && used[..32][i] == ring[0];
    if i == 31 {
      forall p | p in ring && p != ring[0]
        ensures LastUse(trace, p) > LastUse(trace, ring[0])
      {
        var j :| 0 <= j < 32 && used[..32][j] == p;
      }
    } else {
      assert used[31] in used[..32];
      assert used[i] != used[31];
    }
  }

  // ---------------------------------------------------------------- a fresh hit evicted

  lemma {:induction false} RecentDistinct(trace: seq<nat>)
    ensures Lru.Distinct(Resident(trace))
  {
    if trace != [] {
      RecentDistinct(trace[..|trace| - 1]);
    }
  }

  lemma Snoc(trace: seq<nat>, p: nat)
    ensures Filled(trace + [p]) == if p in Resident(trace) then Filled(trace) else Filled(trace) + [p]
    ensures Used(trace + [p]) == Lru.Touch(Used(trace), p)
  {
    hide Lru.Touch, Recent;
    FilledSnoc(trace, p);
    assert (trace + [p])[..|trace|] == trace;
  }

  /** A miss on a full ring evicts the page filled first. */
  lemma NextEvicted(fills: seq<nat>, q: nat)
    requires |Recent(fills)| == 32
    ensures Recent(fills + [q]) == Recent(fills)[1..] + [q]
  {
  }

  /** However recently the page filled first was hit, the ring evicts it at the next miss, and LRU would not. */
  lemma FreshHitEvicted(trace: seq<nat>, q: nat)
    requires |Resident(trace)| == 32 && q !in Resident(trace)
    ensures var p, later := Resident(trace)[0], trace + [Resident(trace)[0]] + [q];
      p !in Resident(later) && |Used(later)| >= 2 && p in Used(later)[..2]
  {
    hide Filled, Used, Recent, Lru.Touch, Lru.Distinct;
    var p := Resident(trace)[0];
    RecentDistinct(trace);
    Snoc(trace, p);
    Snoc(trace + [p], q);
    NextEvicted(Filled(trace), q);
    HeadGone(Resident(trace), q);
    TouchTwice(Used(trace), p, q);
    assert Used(trace + [p] + [q])[..2][1] == p;
  }

  lemma HeadGone(ring: seq<nat>, q: nat)
    requires Lru.Distinct(ring) && ring != [] && q !in ring
    ensures ring[0] in ring && ring[0] != q && ring[0] !in ring[1..] + [q]
  {
  }

  lemma TouchTwice(used: seq<nat>, p: nat, q: nat)
    requires p != q
    ensures var r := Lru.Touch(Lru.Touch(used, p), q); |r| >= 2 && r[0] == q && r[1] == p
  {
  }

  /** Such traces exist: any 32 different pages fill the ring. */
  lemma {:induction false} DifferentPagesFill(trace: seq<nat>)
    requires |trace| <= 32 && Lru.Distinct(trace)
    ensures Filled(trace) == trace && Resident(trace) == trace
  {
    if trace != [] {
      DifferentPagesFill(trace[..|trace| - 1]);
      hide Recent;
      assert trace[|trace| - 1] !in trace[..|trace| - 1];
    }
    AllRecent(trace);
  }

  lemma AllRecent(fills: seq<nat>)
    requires |fills| <= 32
    ensures Recent(fills) == fills
  {
  }

  // ---------------------------------------------------------------- the TLB is that ring

  datatype Use = Use(va: word, need: Purpose)

  function Pages(uses: seq<Use>): (r: seq<nat>)
    ensures |r| == |uses|
  {
    seq(|uses|, i requires 0 <= i < |uses| => Vpn(uses[i].va))
  }

  function AfterUses(s: State, mem: seq<byte>, uses: seq<Use>): State {
    if uses == [] then s
    else Translate(AfterUses(s, mem, uses[..|uses| - 1]), mem, uses[|uses| - 1].va, uses[|uses| - 1].need).0
  }

  /** Every use is for one purpose and permitted by the page tables. */
  ghost predicate Permitted(s: State, mem: seq<byte>, uses: seq<Use>) {
    forall i :: 0 <= i < |uses| ==>
      uses[i].need.Single() && Judge(FindLeaf(mem, s.satp, uses[i].va), s.user, uses[i].need).Pass?
  }

  function KeysOf(fills: Fills): (r: seq<nat>)
    ensures |r| == |fills|
  {
    seq(|fills|, i requires 0 <= i < |fills| => fills[i].vpn)
  }

  /** The ring's fills, all of them live entries of the current space. */
  ghost predicate Live(s: State, fills: Fills) {
    Ring(s, fills) && forall k :: 0 <= k < |fills| ==> fills[k].valid && fills[k].asid == Asid(s.satp)
  }

  /** A page among the last 32 fills, and where it stands among all. */
  lemma RecentAt(fills: seq<nat>, vpn: nat)
    ensures vpn in Recent(fills) <==> exists k :: 0 <= k < |fills| && |fills| - 32 <= k && fills[k] == vpn
  {
    var start := |fills| - Lru.Min(32, |fills|);
    if k :| 0 <= k < |fills| && |fills| - 32 <= k && fills[k] == vpn {
      assert Recent(fills)[k - start] == vpn;
    }
    if vpn in Recent(fills) {
      var j :| 0 <= j < |Recent(fills)| && Recent(fills)[j] == vpn;
      assert fills[start + j] == vpn;
    }
  }

  /** A lookup finds a page exactly if it is among the last 32 fills. */
  lemma FoundIffResident(s: State, fills: Fills, vpn: nat)
    requires Live(s, fills)
    ensures FirstMatch(s.tlb, vpn, Asid(s.satp), 0) < TLB_SIZE <==> vpn in Recent(KeysOf(fills))
  {
    hide FirstMatch, Asid, Recent, Lru.Min;
    var i, keys := FirstMatch(s.tlb, vpn, Asid(s.satp), 0), KeysOf(fills);
    RecentAt(keys, vpn);
    forall k | 0 <= k < |keys| && |keys| - 32 <= k
      ensures k % 32 < 32 && Matches(s.tlb[k % 32], keys[k], Asid(s.satp))
    {
      LiveSlot(s, fills, k);
    }
    if i < TLB_SIZE {
      ResidentIsRecent(s, fills, i);
      var k :| 0 <= k < |fills| && |fills| - 32 <= k && k % 32 == i && s.tlb[i] == fills[k];
      assert keys[k] == vpn;
    }
  }

  lemma LiveSlot(s: State, fills: Fills, k: nat)
    requires Live(s, fills) && k < |fills| && |fills| - 32 <= k
    ensures k % 32 < 32 && Matches(s.tlb[k % 32], fills[k].vpn, Asid(s.satp))
  {
    hide Asid;
  }

  /** One permitted use fills exactly if its page is not among the last 32 fills. */
  lemma UseFills(s: State, mem: seq<byte>, spaces: Paging.Spaces, u: Use, fills: Fills)
    requires Live(s, fills) && Paging.Sound(s, mem, spaces) && Paging.Paged(s, spaces) && u.need.Single()
    requires Judge(FindLeaf(mem, s.satp, u.va), s.user, u.need).Pass?
    ensures var s' := Translate(s, mem, u.va, u.need).0;
      && s'.satp == s.satp && s'.user == s.user && s'.enabled == s.enabled
      && Live(s', Extended(fills, s, s'))
      && KeysOf(Extended(fills, s, s')) ==
           if Vpn(u.va) in Recent(KeysOf(fills)) then KeysOf(fills) else KeysOf(fills) + [Vpn(u.va)]
  {
    hide FindLeaf, PtePpn, PtePerms, Vpn, Asid, Judge, Place, FirstMatch, Translate, Ring, Paging.Sound, Paging.Paged;
    hide Recent, Grants;
    var s' := Translate(s, mem, u.va, u.need).0;
    Paging.TranslateFills(s, mem, spaces, u.va, u.need);
    TranslateRing(s, mem, u.va, u.need, fills);
    FoundIffResident(s, fills, Vpn(u.va));
    var i := FirstMatch(s.tlb, Vpn(u.va), Asid(s.satp), 0);
    if i < TLB_SIZE {
      Paging.MatchAgrees(s, mem, spaces, u.va, u.need, i);
    }
  }

  /** The MMU holds the fills of these pages, in the mode and space it was in, every entry as the tables say. */
  ghost predicate Follows(t: State, s: State, mem: seq<byte>, spaces: Paging.Spaces, fills: Fills, pages: seq<nat>) {
    && Live(t, fills) && KeysOf(fills) == Filled(pages)
    && t.satp == s.satp && t.user == s.user && t.enabled == s.enabled
    && Paging.Sound(t, mem, spaces) && Paging.Unique(t.tlb)
  }

  lemma FollowsUse(t: State, s: State, mem: seq<byte>, spaces: Paging.Spaces, fills: Fills, pages: seq<nat>, u: Use)
    requires Follows(t, s, mem, spaces, fills, pages) && Paging.Paged(s, spaces) && u.need.Single()
    requires Judge(FindLeaf(mem, s.satp, u.va), s.user, u.need).Pass?
    ensures var t' := Translate(t, mem, u.va, u.need).0;
      Follows(t', s, mem, spaces, Extended(fills, t, t'), pages + [Vpn(u.va)])
  {
    hide Translate, Judge, FindLeaf, Vpn, Asid, Live, KeysOf, Filled, Recent, Extended;
    hide Paging.Paged, Paging.Sound, Paging.Unique;
    SamePaged(s, t, spaces);
    UseFills(t, mem, spaces, u, fills);
    Paging.TranslateKeeps(t, mem, spaces, u.va, u.need);
    FilledSnoc(pages, Vpn(u.va));
  }

  lemma FilledSnoc(pages: seq<nat>, p: nat)
    ensures Filled(pages + [p]) == if p in Recent(Filled(pages)) then Filled(pages) else Filled(pages) + [p]
  {
    hide Recent;
    assert (pages + [p])[..|pages|] == pages;
  }

  lemma FollowsNothing(s: State, mem: seq<byte>, spaces: Paging.Spaces)
    requires Ring(s, [])
    ensures Follows(s, s, mem, spaces, [], [])
  {
    hide Paging.EntrySound;
  }

  /** In paged mode, from an empty ring, permitted uses leave in the TLB what the ring policy says: its fills are the
      pages `Filled` lists. */
  lemma {:induction false} TlbIsRing(s: State, mem: seq<byte>, spaces: Paging.Spaces, uses: seq<Use>) returns (fills: Fills)
    requires Ring(s, []) && Paging.Paged(s, spaces) && Permitted(s, mem, uses)
    ensures Follows(AfterUses(s, mem, uses), s, mem, spaces, fills, Pages(uses))
    decreases |uses|
  {
    hide Follows, Translate, Judge, FindLeaf, Vpn, Ring, Paging.Paged, Extended;
    fills := [];
    if uses == [] {
      assert Pages(uses) == [];
      FollowsNothing(s, mem, spaces);
    } else {
      var init, u := uses[..|uses| - 1], uses[|uses| - 1];
      fills := TlbIsRing(s, mem, spaces, init);
      var t := AfterUses(s, mem, init);
      assert Pages(uses) == Pages(init) + [Vpn(u.va)];
      FollowsUse(t, s, mem, spaces, fills, Pages(init), u);
      fills := Extended(fills, t, Translate(t, mem, u.va, u.need).0);
    }
  }

  lemma SamePaged(s: State, t: State, spaces: Paging.Spaces)
    requires Paging.Paged(s, spaces) && t.satp == s.satp && t.enabled == s.enabled
    ensures Paging.Paged(t, spaces)
  {
  }
}
