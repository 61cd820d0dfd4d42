/** The TLB is transparent in paged mode: over every sequence of translations, flushes, address-space
    switches and harmless memory writes, the MMU answers what a walk alone would answer. */
module Paging {
  import opened Words
  import opened Mmu

  // ---------------------------------------------------------------- the walk sees only its slots

  /** Which spaces are live: at most one satp value per ASID, as an operating system allots them. */
  type Spaces = map<nat, nat>

  ghost predicate GoodSpaces(spaces: Spaces) {
    forall a :: a in spaces ==> spaces[a] != 0 && Asid(spaces[a]) == a
  }

  lemma SamePage(va: word, va': word, level: nat)
    requires Vpn(va) == Vpn(va') && level <= 2
    ensures Index(va, level) == Index(va', level)
  {
    assert va / 0x20_0000 == va / 0x1000 / 0x200 && va / 0x4000_0000 == va / 0x1000 / 0x4_0000;
    assert va' / 0x20_0000 == va' / 0x1000 / 0x200 && va' / 0x4000_0000 == va' / 0x1000 / 0x4_0000;
  }

  /** The walk is the same for every address of a page. */
  lemma {:induction false} DescendPage(mem: seq<byte>, ppn: nat, va: word, va': word, level: nat)
    requires Vpn(va) == Vpn(va') && level <= 2
    ensures Descend(mem, ppn, va, level) == Descend(mem, ppn, va', level)
    decreases level
  {
    hide Read64, PteValid, PteLeaf, PtePpn, Index;
    SamePage(va, va', level);
    if level > 0 {
      var slot := Slot(ppn, va, level);
      if slot + 8 <= |mem| {
        DescendPage(mem, PtePpn(Read64(mem, Wrap(slot))), va, va', level - 1);
      }
    }
  }

  predicate InSlot(slot: nat, k: int) {
    slot <= k < slot + 8
  }

  /** The byte addresses of the page-table entries a walk reads. */
  ghost function SlotBytes(mem: seq<byte>, ppn: nat, va: word, level: nat): set<int>
    requires level <= 2
    decreases level
  {
    var slot := Slot(ppn, va, level);
    if slot + 8 > |mem| then {}
    else
      var raw := Read64(mem, Wrap(slot));
      (set k | 0 <= k < |mem| && InSlot(Wrap(slot), k))
      + if !PteValid(raw) || PteLeaf(raw) || level == 0 then {} else SlotBytes(mem, PtePpn(raw), va, level - 1)
  }

  lemma Read64Frame(mem: seq<byte>, mem': seq<byte>, at: nat)
    requires at + 8 <= |mem| == |mem'| && forall k :: at <= k < at + 8 ==> mem'[k] == mem[k]
    ensures Read64(mem', at) == Read64(mem, at)
  {
    ReadFrame(mem, mem', at);
    ReadFrame(mem, mem', at + 4);
  }

  /** A write outside the slots a walk reads does not change what the walk finds. */
  lemma {:induction false} DescendFrame(mem: seq<byte>, mem': seq<byte>, ppn: nat, va: word, level: nat)
    requires level <= 2 && |mem'| == |mem|
    requires forall k :: k in SlotBytes(mem, ppn, va, level) && 0 <= k < |mem| ==> mem'[k] == mem[k]
    ensures Descend(mem', ppn, va, level) == Descend(mem, ppn, va, level)
    decreases level
  {
    hide Read64, PteValid, PteLeaf, PtePpn, Slot;
    var slot := Slot(ppn, va, level);
    if slot + 8 <= |mem| {
      assert forall k :: Wrap(slot) <= k < Wrap(slot) + 8 ==> k in SlotBytes(mem, ppn, va, level);
      Read64Frame(mem, mem', Wrap(slot));
      var raw := Read64(mem, Wrap(slot));
      if PteValid(raw) && !PteLeaf(raw) && level > 0 {
        DescendFrame(mem, mem', PtePpn(raw), va, level - 1);
      }
    }
  }

  // ---------------------------------------------------------------- what a sound TLB is

  /** An address inside the page. */
  function BaseOf(vpn: nat): word
    requires vpn < 0x10_0000
  {
    vpn * 0x1000
  }

  /** The entry is what the page tables of its space say about its page. */
  ghost predicate EntrySound(e: Entry, mem: seq<byte>, spaces: Spaces, user: bool) {
    && e.vpn < 0x10_0000 && e.asid in spaces
    && var found := FindLeaf(mem, spaces[e.asid], BaseOf(e.vpn));
      found.Leaf? && e.ppn == PtePpn(found.raw) && e.perms == PtePerms(found.raw) && (user ==> e.perms.u)
  }

  ghost predicate Sound(s: State, mem: seq<byte>, spaces: Spaces) {
    forall i :: 0 <= i < TLB_SIZE && s.tlb[i].valid ==> EntrySound(s.tlb[i], mem, spaces, s.user)
  }

  /** At most one valid entry per page and space. */
  ghost predicate Unique(tlb: Tlb) {
    forall i, j :: 0 <= i < j < TLB_SIZE && tlb[i].valid && tlb[j].valid ==>
      tlb[i].vpn != tlb[j].vpn || tlb[i].asid != tlb[j].asid
  }

  ghost predicate Paged(s: State, spaces: Spaces) {
    s.enabled && s.satp != 0 && Asid(s.satp) in spaces && spaces[Asid(s.satp)] == s.satp && GoodSpaces(spaces)
  }

  lemma VpnBound(va: word)
    ensures Vpn(va) < 0x10_0000 && Vpn(BaseOf(Vpn(va))) == Vpn(va)
  {
  }

  lemma LeafOfPage(mem: seq<byte>, satp: nat, va: word)
    ensures Vpn(va) < 0x10_0000 && FindLeaf(mem, satp, BaseOf(Vpn(va))) == FindLeaf(mem, satp, va)
  {
    VpnBound(va);
    DescendPage(mem, Root(satp), BaseOf(Vpn(va)), va, 2);
  }

  // ---------------------------------------------------------------- one translation

  /** What a walk alone answers, and the fault registers it leaves. */
  function Reference(s: State, mem: seq<byte>, va: word, need: Purpose): (Answer, Cause, word) {
    match Judge(FindLeaf(mem, s.satp, va), s.user, need)
    case Deny(cause, recorded) => (Fault(cause), if recorded then cause else s.lastFault, if recorded then va else s.lastVa)
    case Pass(raw) => (At(Place(PtePpn(raw), va)), s.lastFault, s.lastVa)
  }

  /** A sound entry that grants a single-purpose access is what the walk would pass; one that does not
      grant it is what the walk would deny. */
  lemma MatchAgrees(s: State, mem: seq<byte>, spaces: Spaces, va: word, need: Purpose, i: nat)
    requires Sound(s, mem, spaces) && Paged(s, spaces) && need.Single()
    requires i < TLB_SIZE && Matches(s.tlb[i], Vpn(va), Asid(s.satp))
    ensures var verdict := Judge(FindLeaf(mem, s.satp, va), s.user, need);
      if Grants(s.tlb[i].perms, need) then verdict.Pass? && PtePpn(verdict.raw) == s.tlb[i].ppn else verdict.Deny?
  {
    hide FindLeaf, PtePpn, PtePerms, Vpn, Asid, BaseOf;
    LeafOfPage(mem, s.satp, va);
    assert EntrySound(s.tlb[i], mem, spaces, s.user);
  }

  /** Transparency of one translation: hit, denied or missed, the MMU answers what the walk would. */
  lemma TranslateIsReference(s: State, mem: seq<byte>, spaces: Spaces, va: word, need: Purpose)
    requires Sound(s, mem, spaces) && Paged(s, spaces) && need.Single()
    ensures var (s', answer) := Translate(s, mem, va, need);
      (answer, s'.lastFault, s'.lastVa) == Reference(s, mem, va, need)
  {
    hide FindLeaf, PtePpn, PtePerms, Vpn, Asid, Judge, Place, FirstMatch, Sound, Paged;
    PagedFacts(s, spaces);
    var i := FirstMatch(s.tlb, Vpn(va), Asid(s.satp), 0);
    if i < TLB_SIZE {
      MatchAgrees(s, mem, spaces, va, need, i);
    }
  }

  lemma PagedFacts(s: State, spaces: Spaces)
    requires Paged(s, spaces)
    ensures s.enabled && s.satp != 0
  {
  }

  /** What a translation does to the TLB: nothing, or one fill, of a page that had no entry. */
  lemma TranslateFills(s: State, mem: seq<byte>, spaces: Spaces, va: word, need: Purpose)
    requires Sound(s, mem, spaces) && Paged(s, spaces) && need.Single()
    ensures var s' := Translate(s, mem, va, need).0;
      && s'.enabled == s.enabled && s'.satp == s.satp && s'.user == s.user && s'.pages == s.pages
      && var verdict := Judge(FindLeaf(mem, s.satp, va), s.user, need);
        if Lookup(s, va, need).Miss? && verdict.Pass? then
          s'.tlb == s.tlb[s.next % 32 := EntryFor(va, s.satp, verdict.raw)] && s'.next == s.next + 1
        else s'.tlb == s.tlb && s'.next == s.next
  {
    hide FindLeaf, PtePpn, PtePerms, Vpn, Asid, Judge, Place, FirstMatch, Sound, Paged;
    PagedFacts(s, spaces);
    var i := FirstMatch(s.tlb, Vpn(va), Asid(s.satp), 0);
    if i < TLB_SIZE {
      MatchAgrees(s, mem, spaces, va, need, i);
    }
  }

  lemma FillSound(s: State, mem: seq<byte>, spaces: Spaces, va: word, need: Purpose)
    requires Paged(s, spaces) && need.Single()
    requires Judge(FindLeaf(mem, s.satp, va), s.user, need).Pass?
    ensures EntrySound(EntryFor(va, s.satp, Judge(FindLeaf(mem, s.satp, va), s.user, need).raw), mem, spaces, s.user)
  {
    LeafOfPage(mem, s.satp, va);
    hide FindLeaf, PtePpn, PtePerms, Vpn, Asid, BaseOf;
  }

  lemma MissMeansNew(s: State, va: word, need: Purpose)
    requires Lookup(s, va, need).Miss?
    ensures forall j :: 0 <= j < TLB_SIZE ==> !Matches(s.tlb[j], Vpn(va), Asid(s.satp))
  {
  }

  /** Soundness and uniqueness survive every single-purpose translation. */
  lemma TranslateKeeps(s: State, mem: seq<byte>, spaces: Spaces, va: word, need: Purpose)
    requires Sound(s, mem, spaces) && Unique(s.tlb) && Paged(s, spaces) && need.Single()
    ensures var s' := Translate(s, mem, va, need).0;
      Sound(s', mem, spaces) && Unique(s'.tlb) && Paged(s', spaces)
  {
    hide FindLeaf, Judge, Translate, Lookup, EntrySound;
    TranslateFills(s, mem, spaces, va, need);
    var verdict := Judge(FindLeaf(mem, s.satp, va), s.user, need);
    if Lookup(s, va, need).Miss? && verdict.Pass? {
      FillSound(s, mem, spaces, va, need);
      MissMeansNew(s, va, need);
    }
  }

  // ---------------------------------------------------------------- sequences of operations

  datatype Event =
    | Access(va: word, need: Purpose)
    | FlushAll
    | FlushPage(va: word)
    | SwitchTo(satp: nat)
    | SetUser(user: bool)
    | Poke(at: nat, bytes: seq<byte>)

  datatype System = System(mmu: State, mem: seq<byte>)

  function Apply(y: System, e: Event): System {
    match e
    case Access(va, need) => y.(mmu := Translate(y.mmu, y.mem, va, need).0)
    case FlushAll => y.(mmu := Flush(y.mmu))
    case FlushPage(va) => y.(mmu := FlushVa(y.mmu, va))
    case SwitchTo(satp) => y.(mmu := y.mmu.(satp := satp))
    case SetUser(user) => y.(mmu := y.mmu.(user := user))
    case Poke(at, bytes) => if at + |bytes| <= |y.mem| then y.(mem := Splice(y.mem, at, bytes)) else y
  }

  /** None of the bytes is part of a page-table slot behind the entry. */
  ghost predicate Clear(e: Entry, mem: seq<byte>, spaces: Spaces, at: nat, size: nat) {
    e.vpn < 0x10_0000 && e.asid in spaces ==>
      forall k :: k in SlotBytes(mem, Root(spaces[e.asid]), BaseOf(e.vpn), 2) ==> !(at <= k < at + size)
  }

  /** The write misses every page-table slot behind a resident entry. */
  ghost predicate Harmless(y: System, spaces: Spaces, at: nat, size: nat) {
    forall i :: 0 <= i < TLB_SIZE && y.mmu.tlb[i].valid ==> Clear(y.mmu.tlb[i], y.mem, spaces, at, size)
  }

  /** No resident page is for the supervisor alone. */
  predicate AllUserPages(s: State) {
    forall i :: 0 <= i < TLB_SIZE && s.tlb[i].valid ==> s.tlb[i].perms.u
  }

  /** What is asked of each event: single-purpose accesses, switches between the allotted spaces, entering user
      mode only with user pages resident, writes that leave the tables of resident pages alone. Nothing is
      asked of flushes and of leaving user mode. */
  ghost predicate Allowed(y: System, spaces: Spaces, e: Event) {
    match e
    case Access(_, need) => need.Single()
    case FlushAll => true
    case FlushPage(_) => true
    case SwitchTo(satp) => Asid(satp) in spaces && spaces[Asid(satp)] == satp
    case SetUser(user) => user ==> AllUserPages(y.mmu)
    case Poke(at, bytes) => Harmless(y, spaces, at, |bytes|)
  }

  ghost predicate Good(y: System, spaces: Spaces) {
    Sound(y.mmu, y.mem, spaces) && Unique(y.mmu.tlb) && Paged(y.mmu, spaces)
  }

  lemma PokeKeeps(y: System, spaces: Spaces, at: nat, bytes: seq<byte>)
    requires Good(y, spaces) && Harmless(y, spaces, at, |bytes|) && at + |bytes| <= |y.mem|
    ensures Sound(y.mmu, Splice(y.mem, at, bytes), spaces)
  {
    hide Unique, Paged, Splice, Descend, SlotBytes;
    var mem' := Splice(y.mem, at, bytes);
    forall i | 0 <= i < TLB_SIZE && y.mmu.tlb[i].valid
      ensures EntrySound(y.mmu.tlb[i], mem', spaces, y.mmu.user)
    {
      var e := y.mmu.tlb[i];
      assert EntrySound(e, y.mem, spaces, y.mmu.user) && Clear(e, y.mem, spaces, at, |bytes|);
      DescendFrame(y.mem, mem', Root(spaces[e.asid]), BaseOf(e.vpn), 2);
    }
  }

  lemma SwitchPaged(s: State, spaces: Spaces, satp: nat)
    requires Paged(s, spaces) && Asid(satp) in spaces && spaces[Asid(satp)] == satp
    ensures Paged(s.(satp := satp), spaces)
  {
  }

  lemma SetUserKeeps(y: System, spaces: Spaces, user: bool)
    requires Good(y, spaces) && (user ==> AllUserPages(y.mmu))
    ensures Good(y.(mmu := y.mmu.(user := user)), spaces)
  {
    hide FindLeaf, PtePpn, PtePerms, Asid;
    forall i | 0 <= i < TLB_SIZE && y.mmu.tlb[i].valid
      ensures EntrySound(y.mmu.tlb[i], y.mem, spaces, user)
    {
      assert EntrySound(y.mmu.tlb[i], y.mem, spaces, y.mmu.user);
    }
  }

  lemma ApplyKeeps(y: System, spaces: Spaces, e: Event)
    requires Good(y, spaces) && Allowed(y, spaces, e)
    ensures Good(Apply(y, e), spaces)
  {
    hide Translate, EntrySound, Asid, Harmless;
    match e
    case Access(va, need) => TranslateKeeps(y.mmu, y.mem, spaces, va, need);
    case FlushAll =>
    case FlushPage(va) =>
    case SwitchTo(satp) => SwitchPaged(y.mmu, spaces, satp);
    case SetUser(user) => SetUserKeeps(y, spaces, user);
    case Poke(at, bytes) =>
      if at + |bytes| <= |y.mem| {
        PokeKeeps(y, spaces, at, bytes);
      }
  }

  function After(y: System, events: seq<Event>): System {
    if events == [] then y else Apply(After(y, events[..|events| - 1]), events[|events| - 1])
  }

  ghost predicate AllAllowed(y: System, spaces: Spaces, events: seq<Event>) {
    forall i :: 0 <= i < |events| ==> Allowed(After(y, events[..i]), spaces, events[i])
  }

  lemma {:induction false} AfterKeeps(y: System, spaces: Spaces, events: seq<Event>)
    requires Good(y, spaces) && AllAllowed(y, spaces, events)
    ensures Good(After(y, events), spaces)
  {
    hide Apply, Good, Allowed;
    if events != [] {
      var before := events[..|events| - 1];
      forall i | 0 <= i < |before|
        ensures Allowed(After(y, before[..i]), spaces, before[i])
      {
        assert before[..i] == events[..i];
      }
      AfterKeeps(y, spaces, before);
      assert Allowed(After(y, before), spaces, events[|events| - 1]);
      ApplyKeeps(After(y, before), spaces, events[|events| - 1]);
    }
  }

  /** A machine whose TLB holds no valid entry, as after construction or a full flush. */
  ghost predicate Cold(s: State) {
    forall i :: 0 <= i < TLB_SIZE ==> !s.tlb[i].valid
  }

  /** TLB transparency: from a cold TLB, after any allowed events, a translation answers exactly as a walk
      of the page tables as they are then, with the same fault registers; and each page of each space has
      at most one valid entry. */
  lemma TlbTransparent(y: System, spaces: Spaces, events: seq<Event>, va: word, need: Purpose)
    requires Cold(y.mmu) && Paged(y.mmu, spaces) && AllAllowed(y, spaces, events) && need.Single()
    ensures var z := After(y, events);
      && Unique(z.mmu.tlb)
      && var (s', answer) := Translate(z.mmu, z.mem, va, need);
        (answer, s'.lastFault, s'.lastVa) == Reference(z.mmu, z.mem, va, need)
  {
    hide Translate, Reference, Apply, Allowed, Paged, EntrySound;
    AfterKeeps(y, spaces, events);
    var z := After(y, events);
    TranslateIsReference(z.mmu, z.mem, spaces, va, need);
  }

  /** Why accesses must be for one purpose: an access that writes and fetches at once is checked by the
      TLB for X only, and by the walk for both, so on a resident page that grants X the two agree exactly
      when the page is writable. */
  lemma DoublePurposeIffWritable(s: State, mem: seq<byte>, spaces: Spaces, va: word, need: Purpose, i: nat)
    requires Sound(s, mem, spaces) && Paged(s, spaces) && need.write && need.fetch
    requires i == FirstMatch(s.tlb, Vpn(va), Asid(s.satp), 0) && i < TLB_SIZE && s.tlb[i].perms.x
    ensures Translate(s, mem, va, need).1 == Reference(s, mem, va, need).0 <==> s.tlb[i].perms.w
  {
    hide FindLeaf, PtePpn, PtePerms, Vpn, Asid, Place, BaseOf;
    LeafOfPage(mem, s.satp, va);
    assert EntrySound(s.tlb[i], mem, spaces, s.user);
  }

  /** Why entering user mode is asked something: a hit never looks at U again, so on a resident page that grants a
      single-purpose access from user mode, TLB and walk agree exactly when it is a user page. */
  lemma UserHitIffUserPage(s: State, mem: seq<byte>, spaces: Spaces, va: word, need: Purpose, i: nat)
    requires Sound(s.(user := false), mem, spaces) && Paged(s, spaces) && s.user && need.Single()
    requires i == FirstMatch(s.tlb, Vpn(va), Asid(s.satp), 0) && i < TLB_SIZE && Grants(s.tlb[i].perms, need)
    ensures Translate(s, mem, va, need).1 == Reference(s, mem, va, need).0 <==> s.tlb[i].perms.u
  {
    hide FindLeaf, PtePpn, PtePerms, Vpn, Asid, Place, BaseOf;
    LeafOfPage(mem, s.satp, va);
    assert EntrySound(s.tlb[i], mem, spaces, false);
  }
}
