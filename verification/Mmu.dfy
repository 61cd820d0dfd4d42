/** The MMU: a three-level page-table walk and a linear map for bare mode, behind a 32-entry ring TLB. */
module Mmu {
  import opened Words

  const TLB_SIZE: nat := 32

  // ---------------------------------------------------------------- values

  datatype Perms = Perms(r: bool, w: bool, x: bool, u: bool)

  datatype Entry = Entry(vpn: nat, ppn: nat, perms: Perms, valid: bool, asid: nat)

  const NO_ENTRY := Entry(0, 0, Perms(false, false, false, false), false, 0)

  type Tlb = s: seq<Entry> | |s| == 32 witness seq(32, _ => Entry(0, 0, Perms(false, false, false, false), false, 0))

  /** One page of the linear map that serves bare mode. */
  datatype Page = Page(vpn: word, ppn: word, perms: Perms)

  /** The causes the MMU can name; it never raises the access faults of stores and fetches. */
  datatype Cause =
    | NoFault | LoadAccessFault | StoreAccessFault | FetchAccessFault
    | LoadPageFault | StorePageFault | FetchPageFault

  datatype Answer = At(pa: word) | Fault(cause: Cause)

  /** What an access is for; the callers ask for at most one of the two. */
  datatype Purpose = Purpose(write: bool, fetch: bool) {
    predicate Single() {
      !(write && fetch)
    }
  }

  datatype State = State(
    tlb: Tlb, next: nat, hits: nat, misses: nat, pages: seq<Page>,
    enabled: bool, satp: nat, user: bool, lastFault: Cause, lastVa: word)

  /** The MMU as constructed: nothing mapped, nothing cached, disabled. */
  const NEW_MMU := State(seq(32, _ => NO_ENTRY), 0, 0, 0, [], false, 0, false, NoFault, 0)

  function Vpn(va: word): nat { va / 0x1000 }
  function Asid(satp: nat): nat { satp / 0x1000_0000_0000 % 0x1_0000 }
  function Root(satp: nat): nat { satp % 0x1000_0000_0000 }

  /** Physical address of `va` in frame `ppn`, cut to 32 bits. */
  function Place(ppn: nat, va: word): word {
    Wrap(ppn * 0x1000 + va % 0x1000)
  }

  /** Does an entry grant what the access needs: X to fetch, else W to write, else R. */
  predicate Grants(p: Perms, need: Purpose) {
    if need.fetch then p.x else if need.write then p.w else p.r
  }

  // ---------------------------------------------------------------- page tables

  function Read64(mem: seq<byte>, at: nat): nat
    requires at + 8 <= |mem|
  {
    Read32(mem, at) + 0x1_0000_0000 * Read32(mem, at + 4)
  }

  predicate PteValid(raw: nat) { raw % 2 == 1 }
  function PtePpn(raw: nat): nat { raw / 0x400 % 0x1000_0000_0000 }

  function PtePerms(raw: nat): Perms {
    Perms(raw / 2 % 2 == 1, raw / 4 % 2 == 1, raw / 8 % 2 == 1, raw / 16 % 2 == 1)
  }

  predicate PteLeaf(raw: nat) {
    PtePerms(raw).r || PtePerms(raw).w || PtePerms(raw).x
  }

  function Index(va: word, level: nat): nat
    requires level <= 2
  {
    if level == 0 then va / 0x1000 % 0x200 else if level == 1 then va / 0x20_0000 % 0x200 else va / 0x4000_0000 % 0x200
  }

  datatype Found = Leaf(raw: nat) | OutOfRam | NotValid | NoLeaf

  function Slot(ppn: nat, va: word, level: nat): nat
    requires level <= 2
  {
    ppn * 0x1000 + Index(va, level) * 8
  }

  /** The walk from `level` down, starting in the table at frame `ppn`; the byte address is cut to 32 bits
      after the bounds check. */
  function Descend(mem: seq<byte>, ppn: nat, va: word, level: nat): Found
    requires level <= 2
    decreases level
  {
    var slot := Slot(ppn, va, level);
    if slot + 8 > |mem| then OutOfRam
    else
      var raw := Read64(mem, Wrap(slot));
      if !PteValid(raw) then NotValid
      else if PteLeaf(raw) then Leaf(raw)
      else if level == 0 then NoLeaf
      else Descend(mem, PtePpn(raw), va, level - 1)
  }

  function FindLeaf(mem: seq<byte>, satp: nat, va: word): Found {
    Descend(mem, Root(satp), va, 2)
  }

  function PurposeFault(need: Purpose): Cause {
    if need.fetch then FetchPageFault else if need.write then StorePageFault else LoadPageFault
  }

  /** Verdict on an access given what the walk found: no fault, or a cause, and whether it is recorded. */
  datatype Verdict = Pass(raw: nat) | Deny(cause: Cause, recorded: bool)

  function Judge(found: Found, user: bool, need: Purpose): Verdict {
    match found
    case OutOfRam => Deny(LoadAccessFault, true)
    case NotValid => Deny(PurposeFault(need), true)
    case NoLeaf => Deny(LoadPageFault, true)
    case Leaf(raw) =>
      var p := PtePerms(raw);
      if need.write && !p.w then Deny(StorePageFault, true)
      else if need.fetch && !p.x then Deny(FetchPageFault, true)
      else if !need.write && !need.fetch && !p.r then Deny(LoadPageFault, true)
      else if user && !p.u then Deny(LoadPageFault, false)
      else Pass(raw)
  }

  // ---------------------------------------------------------------- TLB

  predicate Matches(e: Entry, vpn: nat, asid: nat) {
    e.valid && e.vpn == vpn && e.asid == asid
  }

  /** Index of the first valid entry for the key, or 32. */
  function FirstMatch(tlb: Tlb, vpn: nat, asid: nat, from: nat): (i: nat)
    requires from <= TLB_SIZE
    ensures from <= i <= TLB_SIZE
    ensures i < TLB_SIZE ==> Matches(tlb[i], vpn, asid)
    ensures forall j :: from <= j < i ==> !Matches(tlb[j], vpn, asid)
    decreases TLB_SIZE - from
  {
    if from == TLB_SIZE || Matches(tlb[from], vpn, asid) then from else FirstMatch(tlb, vpn, asid, from + 1)
  }

  datatype Probe = Hit(pa: word) | Denied | Miss

  function Lookup(s: State, va: word, need: Purpose): Probe {
    var i := FirstMatch(s.tlb, Vpn(va), Asid(s.satp), 0);
    if i == TLB_SIZE then Miss
    else if Grants(s.tlb[i].perms, need) then Hit(Place(s.tlb[i].ppn, va))
    else Denied
  }

  function Probed(s: State, p: Probe): State {
    match p
    case Hit(_) => s.(hits := s.hits + 1)
    case Denied => s
    case Miss => s.(misses := s.misses + 1)
  }

  function Fill(s: State, e: Entry): State {
    s.(tlb := s.tlb[s.next % 32 := e], next := s.next + 1)
  }

  function EntryFor(va: word, satp: nat, raw: nat): Entry {
    Entry(Vpn(va), PtePpn(raw), PtePerms(raw), true, Asid(satp))
  }

  function Noted(s: State, va: word, cause: Cause): State {
    s.(lastFault := cause, lastVa := va)
  }

  /** The walk as the MMU does it: on success the translation is put into the TLB. */
  function Walk(s: State, mem: seq<byte>, va: word, need: Purpose): (State, Answer) {
    match Judge(FindLeaf(mem, s.satp, va), s.user, need)
    case Deny(cause, recorded) => (if recorded then Noted(s, va, cause) else s, Fault(cause))
    case Pass(raw) => (Fill(s, EntryFor(va, s.satp, raw)), At(Place(PtePpn(raw), va)))
  }

  // ---------------------------------------------------------------- bare mode

  /** Index of the first mapped page for vpn, or the length. */
  function FirstPage(pages: seq<Page>, vpn: nat): (i: nat)
    ensures i <= |pages| && (i < |pages| ==> pages[i].vpn == vpn)
    ensures forall j :: 0 <= j < i ==> pages[j].vpn != vpn
    decreases pages
  {
    if pages == [] || pages[0].vpn == vpn then 0 else 1 + FirstPage(pages[1..], vpn)
  }

  function Bare(s: State, va: word, need: Purpose): (State, Answer) {
    var i := FirstPage(s.pages, Vpn(va));
    if i == |s.pages| then (s, At(va))
    else
      var m := s.pages[i];
      if need.write && !m.perms.w then (Noted(s, va, StorePageFault), Fault(StorePageFault))
      else if need.fetch && !m.perms.x then (Noted(s, va, FetchPageFault), Fault(FetchPageFault))
      else (Fill(s, Entry(Vpn(va), m.ppn, m.perms, true, 0)), At(Wrap(m.ppn * 0x1000) + va % 0x1000))
  }

  // ---------------------------------------------------------------- operations

  function Translate(s: State, mem: seq<byte>, va: word, need: Purpose): (State, Answer) {
    var p := Lookup(s, va, need);
    var s1 := Probed(s, p);
    if p.Hit? then (s1, At(p.pa))
    else if !s.enabled || s.satp == 0 then Bare(s1, va, need)
    else Walk(s1, mem, va, need)
  }

  function Invalidated(e: Entry): Entry {
    e.(valid := false)
  }

  function Flush(s: State): State {
    s.(tlb := seq(32, i requires 0 <= i < 32 => Invalidated(s.tlb[i])), next := 0)
  }

  function DropVpn(e: Entry, vpn: nat): Entry {
    if e.vpn == vpn then Invalidated(e) else e
  }

  function FlushVa(s: State, va: word): State {
    s.(tlb := seq(32, i requires 0 <= i < 32 => DropVpn(s.tlb[i], Vpn(va))))
  }

  function Mapped(vaBase: word, paBase: word, count: nat, perms: Perms): seq<Page> {
    seq(count, i requires 0 <= i < count => Page(Wrap(vaBase / 0x1000 + i), Wrap(paBase / 0x1000 + i), perms))
  }

  function IdentityMap(s: State, vaBase: word, paBase: word, count: nat, perms: Perms): State {
    s.(pages := s.pages + Mapped(vaBase, paBase, count, perms))
  }

  // ---------------------------------------------------------------- the object

  class MmuUnit {
    const tlb: array<Entry>
    var next: nat
    var hits: nat
    var misses: nat
    var pages: seq<Page>
    var enabled: bool
    var satp: nat
    var user: bool
    var lastFault: Cause
    var lastVa: word

    function Value(): State
      requires tlb.Length == TLB_SIZE
      reads this, tlb
    {
      State(tlb[..], next, hits, misses, pages, enabled, satp, user, lastFault, lastVa)
    }

    constructor ()
      ensures tlb.Length == TLB_SIZE && fresh(tlb)
      ensures Value() == NEW_MMU
    {
      tlb := new Entry[32](_ => NO_ENTRY);
      next, hits, misses, pages := 0, 0, 0, [];
      enabled, satp, user, lastFault, lastVa := false, 0, false, NoFault, 0;
      new;
      assert tlb[..] == seq(32, _ => NO_ENTRY);
    }

    method TlbLookup(va: word, need: Purpose) returns (p: Probe)
      requires tlb.Length == TLB_SIZE
      modifies this`hits, this`misses
      ensures p == Lookup(old(Value()), va, need) && Value() == Probed(old(Value()), p)
    {
      var vpn, asid := Vpn(va), Asid(satp);
      for i := 0 to TLB_SIZE
        invariant hits == old(hits) && misses == old(misses)
        invariant FirstMatch(tlb[..], vpn, asid, 0) == FirstMatch(tlb[..], vpn, asid, i)
      {
        if Matches(tlb[i], vpn, asid) {
          if Grants(tlb[i].perms, need) {
            hits := hits + 1;
            return Hit(Place(tlb[i].ppn, va));
          }
          return Denied;
        }
      }
      misses := misses + 1;
      return Miss;
    }

    method Insert(e: Entry)
      requires tlb.Length == TLB_SIZE
      modifies this`next, tlb
      ensures Value() == Fill(old(Value()), e)
    {
      tlb[next % 32] := e;
      next := next + 1;
    }

    method Note(va: word, cause: Cause)
      requires tlb.Length == TLB_SIZE
      modifies this`lastFault, this`lastVa
      ensures Value() == Noted(old(Value()), va, cause)
    {
      lastFault, lastVa := cause, va;
    }

    /** The level loop of the walk. */
    method WalkTables(mem: seq<byte>, va: word) returns (found: Found)
      ensures found == FindLeaf(mem, satp, va)
    {
      hide Read64, PteValid, PteLeaf, PtePpn, Slot;
      var cur: nat, level: nat := Root(satp), 3;
      while level > 0
        invariant level <= 3
        invariant level > 0 ==> Descend(mem, cur, va, level - 1) == FindLeaf(mem, satp, va)
        invariant level == 0 ==> FindLeaf(mem, satp, va) == NoLeaf
        decreases level
      {
        level := level - 1;
        var slot := Slot(cur, va, level);
        if slot + 8 > |mem| {
          return OutOfRam;
        }
        var raw := Read64(mem, Wrap(slot));
        if !PteValid(raw) {
          return NotValid;
        }
        if PteLeaf(raw) {
          return Leaf(raw);
        }
        cur := PtePpn(raw);
      }
      return NoLeaf;
    }

    method WalkUnit(mem: seq<byte>, va: word, need: Purpose) returns (answer: Answer)
      requires tlb.Length == TLB_SIZE
      modifies this`next, this`lastFault, this`lastVa, tlb
      ensures (Value(), answer) == Walk(old(Value()), mem, va, need)
    {
      hide FindLeaf, PtePerms, PtePpn;
      var found := WalkTables(mem, va);
      var verdict := Judge(found, user, need);
      match verdict {
        case Deny(cause, recorded) =>
          if recorded {
            Note(va, cause);
          }
          return Fault(cause);
        case Pass(raw) =>
          Insert(EntryFor(va, satp, raw));
          return At(Place(PtePpn(raw), va));
      }
    }

    /** The scan of the linear map: the first page for vpn, or the length. */
    method FindPage(vpn: nat) returns (i: nat)
      ensures i == FirstPage(pages, vpn)
    {
      i := 0;
      assert pages[0..] == pages;
      while i < |pages| && pages[i].vpn != vpn
        invariant i <= |pages| && FirstPage(pages, vpn) == i + FirstPage(pages[i..], vpn)
      {
        assert pages[i..][1..] == pages[i + 1..];
        i := i + 1;
      }
    }

    method BareUnit(va: word, need: Purpose) returns (answer: Answer)
      requires tlb.Length == TLB_SIZE
      modifies this`next, this`lastFault, this`lastVa, tlb
      ensures (Value(), answer) == Bare(old(Value()), va, need)
    {
      hide FirstPage, Vpn;
      var i := FindPage(Vpn(va));
      if i == |pages| {
        return At(va);
      }
      var m := pages[i];
      if need.write && !m.perms.w {
        Note(va, StorePageFault);
        return Fault(StorePageFault);
      }
      if need.fetch && !m.perms.x {
        Note(va, FetchPageFault);
        return Fault(FetchPageFault);
      }
      Insert(Entry(Vpn(va), m.ppn, m.perms, true, 0));
      return At(Wrap(m.ppn * 0x1000) + va % 0x1000);
    }

    method TranslateVa(mem: seq<byte>, va: word, need: Purpose) returns (answer: Answer)
      requires tlb.Length == TLB_SIZE
      modifies this, tlb
      ensures (Value(), answer) == Translate(old(Value()), mem, va, need)
    {
      hide Lookup, Walk, Bare;
      var p := TlbLookup(va, need);
      if p.Hit? {
        return At(p.pa);
      }
      if !enabled || satp == 0 {
        answer := BareUnit(va, need);
      } else {
        answer := WalkUnit(mem, va, need);
      }
    }

    method TlbFlush()
      requires tlb.Length == TLB_SIZE
      modifies this`next, tlb
      ensures Value() == Flush(old(Value()))
    {
      for i := 0 to TLB_SIZE
        invariant forall k :: 0 <= k < TLB_SIZE ==> tlb[k] == if k < i then Invalidated(old(tlb[k])) else old(tlb[k])
      {
        tlb[i] := Invalidated(tlb[i]);
      }
      next := 0;
      assert tlb[..] == Flush(old(Value())).tlb;
    }

    method TlbFlushVa(va: word)
      requires tlb.Length == TLB_SIZE
      modifies tlb
      ensures Value() == FlushVa(old(Value()), va)
    {
      for i := 0 to TLB_SIZE
        invariant forall k :: 0 <= k < TLB_SIZE ==> tlb[k] == if k < i then DropVpn(old(tlb[k]), Vpn(va)) else old(tlb[k])
      {
        if tlb[i].valid && tlb[i].vpn == Vpn(va) {
          tlb[i] := Invalidated(tlb[i]);
        }
      }
      assert tlb[..] == FlushVa(old(Value()), va).tlb;
    }

    method MapIdentity(vaBase: word, paBase: word, count: nat, perms: Perms)
      requires tlb.Length == TLB_SIZE
      modifies this`pages
      ensures Value() == IdentityMap(old(Value()), vaBase, paBase, count, perms)
    {
      for i := 0 to count
        invariant pages == old(pages) + Mapped(vaBase, paBase, i, perms)
      {
        pages := pages + [Page(Wrap(vaBase / 0x1000 + i), Wrap(paBase / 0x1000 + i), perms)];
        assert Mapped(vaBase, paBase, i + 1, perms) == Mapped(vaBase, paBase, i, perms)
          + [Page(Wrap(vaBase / 0x1000 + i), Wrap(paBase / 0x1000 + i), perms)];
      }
    }
  }
}
