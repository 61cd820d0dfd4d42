/** The ring discipline of the TLB: its slots are exactly the last 32 fills since the last full flush. */
module RingTlb {
  import opened Words
  import opened Mmu

  /** Every fill since the last full flush, in order; a page flush marks the fills of that page invalid. */
  type Fills = seq<Entry>

  /** Slot k mod 32 holds fill k as long as it is among the last 32; slots never filled hold nothing valid. */
  ghost predicate Ring(s: State, fills: Fills) {
    && s.next == |fills|
    && (forall k :: 0 <= k < |fills| && |fills| - 32 <= k ==> s.tlb[k % 32] == fills[k])
    && (forall j :: |fills| <= j < TLB_SIZE ==> !s.tlb[j].valid)
  }

  function Dropped(fills: Fills, vpn: nat): (r: Fills)
    ensures |r| == |fills|
  {
    seq(|fills|, i requires 0 <= i < |fills| => DropVpn(fills[i], vpn))
  }

  /** The fills after one event, given the fill the event made, if any. */
  function Extended(fills: Fills, s: State, s': State): Fills {
    if s'.next == s.next then fills else fills + [s'.tlb[s.next % 32]]
  }

  lemma FillRing(s: State, fills: Fills, e: Entry)
    requires Ring(s, fills)
    ensures Ring(Fill(s, e), fills + [e])
  {
    var s', fills' := Fill(s, e), fills + [e];
    forall k | 0 <= k < |fills'| && |fills'| - 32 <= k
      ensures s'.tlb[k % 32] == fills'[k]
    {
      if k < |fills| {
        Apart(k, |fills|);
        assert fills'[k] == fills[k] && s.tlb[k % 32] == fills[k];
      }
    }
    forall j | |fills'| <= j < TLB_SIZE
      ensures !s'.tlb[j].valid
    {
      assert s.next % 32 == s.next;
    }
  }

  lemma Apart(k: nat, n: nat)
    requires n - 32 < k < n
    ensures k % 32 != n % 32
  {
  }

  /** A translation fills at most once, with a valid entry for the page asked for, at the next slot. */
  lemma TranslateRing(s: State, mem: seq<byte>, va: word, need: Purpose, fills: Fills)
    requires Ring(s, fills)
    ensures var s' := Translate(s, mem, va, need).0;
      Ring(s', Extended(fills, s, s')) && (s'.next != s.next ==> s'.tlb[s.next % 32].vpn == Vpn(va))
  {
    hide FindLeaf, PtePpn, PtePerms, Vpn, Asid, Judge, Place, FirstMatch, FirstPage, Ring;
    var s1 := Probed(s, Lookup(s, va, need));
    ProbedRing(s, Lookup(s, va, need), fills);
    var s' := Translate(s, mem, va, need).0;
    if s'.next != s.next {
      FillRing(s1, fills, s'.tlb[s.next % 32]);
      NotedRing(Fill(s1, s'.tlb[s.next % 32]), s', Extended(fills, s, s'));
    } else {
      NotedRing(s1, s', fills);
    }
  }

  lemma ProbedRing(s: State, p: Probe, fills: Fills)
    requires Ring(s, fills)
    ensures Ring(Probed(s, p), fills)
  {
  }

  lemma NotedRing(s: State, s': State, fills: Fills)
    requires Ring(s, fills) && s'.tlb == s.tlb && s'.next == s.next
    ensures Ring(s', fills)
  {
  }

  lemma FlushRing(s: State)
    ensures Ring(Flush(s), [])
  {
  }

  lemma FlushVaRing(s: State, va: word, fills: Fills)
    requires Ring(s, fills)
    ensures Ring(FlushVa(s, va), Dropped(fills, Vpn(va)))
  {
    hide Vpn;
  }

  // ---------------------------------------------------------------- histories

  datatype Event = Access(va: word, need: Purpose, mem: seq<byte>) | FlushAll | FlushPage(va: word)
    | Configure(enabled: bool, satp: nat, user: bool) | MapPages(vaBase: word, paBase: word, count: nat, perms: Perms)

  datatype History = History(s: State, fills: Fills)

  function Observe(h: History, e: Event): History {
    match e
    case Access(va, need, mem) =>
      var s' := Translate(h.s, mem, va, need).0;
      History(s', Extended(h.fills, h.s, s'))
    case FlushAll => History(Flush(h.s), [])
    case FlushPage(va) => History(FlushVa(h.s, va), Dropped(h.fills, Vpn(va)))
    case Configure(enabled, satp, user) => h.(s := h.s.(enabled := enabled, satp := satp, user := user))
    case MapPages(vaBase, paBase, count, perms) => h.(s := IdentityMap(h.s, vaBase, paBase, count, perms))
  }

  function Watch(h: History, events: seq<Event>): History {
    if events == [] then h else Observe(Watch(h, events[..|events| - 1]), events[|events| - 1])
  }

  /** In every mode, whatever the tables, modes and maps do in between: the valid entries of the TLB are
      exactly the unflushed ones among the last 32 fills. */
  lemma {:induction false} RingAlways(h: History, events: seq<Event>)
    requires Ring(h.s, h.fills)
    ensures Ring(Watch(h, events).s, Watch(h, events).fills)
  {
    hide Ring, Translate, Flush, FlushVa, Mapped, Extended;
    if events != [] {
      RingAlways(h, events[..|events| - 1]);
      var g := Watch(h, events[..|events| - 1]);
      match events[|events| - 1]
      case Access(va, need, mem) => TranslateRing(g.s, mem, va, need, g.fills);
      case FlushAll => FlushRing(g.s);
      case FlushPage(va) => FlushVaRing(g.s, va, g.fills);
      case Configure(enabled, satp, user) => NotedRing(g.s, g.s.(enabled := enabled, satp := satp, user := user), g.fills);
      case MapPages(vaBase, paBase, count, perms) =>
        NotedRing(g.s, IdentityMap(g.s, vaBase, paBase, count, perms), g.fills);
    }
  }

  /** Hence every valid entry is one of the last 32 fills ... */
  lemma ResidentIsRecent(s: State, fills: Fills, j: nat)
    requires Ring(s, fills) && j < TLB_SIZE && s.tlb[j].valid
    ensures exists k :: 0 <= k < |fills| && |fills| - 32 <= k && k % 32 == j && s.tlb[j] == fills[k]
  {
    var n := |fills|;
    var k := n - 1 - (n - 1 - j) % 32;
    LatestFor(n, j);
    assert s.tlb[k % 32] == fills[k];
  }

  lemma LatestFor(n: nat, j: nat)
    requires j < 32 && j < n
    ensures var k := n - 1 - (n - 1 - j) % 32; 0 <= k < n && n - 32 <= k && k % 32 == j
  {
    var d := (n - 1 - j) / 32;
    assert n - 1 - (n - 1 - j) % 32 == j + 32 * d;
  }

  predicate SameKey(e: Entry, e': Entry) {
    e.vpn == e'.vpn && e.asid == e'.asid
  }

  /** ... and the latest fill of a page, unless flushed, is found by the lookup exactly while at most 31 more
      fills have followed it: after the 32nd no slot holds an entry under its key. */
  lemma FoundIffRecent(s: State, fills: Fills, k: nat)
    requires Ring(s, fills) && k < |fills| && fills[k].valid
    requires forall j :: k < j < |fills| ==> !SameKey(fills[j], fills[k])
    ensures FirstMatch(s.tlb, fills[k].vpn, fills[k].asid, 0) < TLB_SIZE <==> |fills| <= k + 32
  {
    hide FirstMatch;
    var i := FirstMatch(s.tlb, fills[k].vpn, fills[k].asid, 0);
    if |fills| <= k + 32 {
      assert s.tlb[k % 32] == fills[k];
    } else if i < TLB_SIZE {
      ResidentIsRecent(s, fills, i);
    }
  }

  lemma NewRing()
    ensures Ring(NEW_MMU, [])
  {
  }

  /** From construction on, in every mode and after any events, the TLB holds nothing valid but the unflushed
      among the last 32 fills since the last full flush, each in its slot. */
  lemma RingFromNew(events: seq<Event>)
    ensures var h := Watch(History(NEW_MMU, []), events);
      && Ring(h.s, h.fills)
      && forall j :: 0 <= j < TLB_SIZE && h.s.tlb[j].valid ==>
          exists k :: 0 <= k < |h.fills| && |h.fills| - 32 <= k && k % 32 == j && h.s.tlb[j] == h.fills[k]
  {
    hide Ring, Watch;
    NewRing();
    RingAlways(History(NEW_MMU, []), events);
    var h := Watch(History(NEW_MMU, []), events);
    forall j | 0 <= j < TLB_SIZE && h.s.tlb[j].valid
      ensures exists k :: 0 <= k < |h.fills| && |h.fills| - 32 <= k && k % 32 == j && h.s.tlb[j] == h.fills[k]
    {
      ResidentIsRecent(h.s, h.fills, j);
    }
  }
}
