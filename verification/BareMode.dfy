/** Bare mode: with the MMU disabled or satp zero the TLB caches the linear map, and stays correct without ever
    being flushed although maps are only appended and pages can be resident twice. */
module BareMode {
  import opened Words
  import opened Mmu

  /** Translations are served from the linear map. */
  predicate InBareMode(s: State) {
    !s.enabled || s.satp == 0
  }

  /** What the linear map alone says: the first page wins, unmapped addresses are their own. */
  function MapAnswer(s: State, va: word, need: Purpose): Answer {
    var i := FirstPage(s.pages, Vpn(va));
    if i == |s.pages| then At(va)
    else if need.write && !s.pages[i].perms.w then Fault(StorePageFault)
    else if need.fetch && !s.pages[i].perms.x then Fault(FetchPageFault)
    else At(Place(s.pages[i].ppn, va))
  }

  /** Every valid entry repeats the first page mapped for its number. */
  ghost predicate Faithful(s: State) {
    forall j :: 0 <= j < TLB_SIZE && s.tlb[j].valid ==> EntryFaithful(s.tlb[j], s.pages)
  }

  ghost predicate EntryFaithful(e: Entry, pages: seq<Page>) {
    var i := FirstPage(pages, e.vpn);
    e.asid == 0 && i < |pages| && e.ppn == pages[i].ppn && e.perms == pages[i].perms
  }

  lemma PlaceSplit(ppn: word, va: word)
    ensures Wrap(ppn * 0x1000) + va % 0x1000 == Place(ppn, va)
  {
    var q, r := ppn / 0x10_0000, ppn % 0x10_0000;
    assert ppn * 0x1000 == q * 0x1_0000_0000 + r * 0x1000;
    WrapIs(ppn * 0x1000, q);
    WrapIs(ppn * 0x1000 + va % 0x1000, q);
    hide Wrap;
  }

  /** In bare mode a single-purpose translation answers what the map says. */
  lemma TranslateIsMap(s: State, mem: seq<byte>, va: word, need: Purpose)
    requires Faithful(s) && InBareMode(s) && need.Single()
    ensures Translate(s, mem, va, need).1 == MapAnswer(s, va, need)
  {
    hide Vpn, Place, FirstPage, FirstMatch, Asid;
    var i := FirstPage(s.pages, Vpn(va));
    if i < |s.pages| {
      PlaceSplit(s.pages[i].ppn, va);
    }
    var j := FirstMatch(s.tlb, Vpn(va), Asid(s.satp), 0);
    if j < TLB_SIZE {
      assert EntryFaithful(s.tlb[j], s.pages);
    }
  }

  lemma TranslateFaithful(s: State, mem: seq<byte>, va: word, need: Purpose)
    requires Faithful(s) && InBareMode(s)
    ensures Faithful(Translate(s, mem, va, need).0)
  {
    hide Vpn, Place, FirstPage, FirstMatch, Asid;
  }

  /** Appending pages changes no first page that exists. */
  lemma {:induction false} FirstPageAppend(pages: seq<Page>, more: seq<Page>, vpn: nat)
    requires FirstPage(pages, vpn) < |pages|
    ensures FirstPage(pages + more, vpn) == FirstPage(pages, vpn)
    ensures (pages + more)[FirstPage(pages, vpn)] == pages[FirstPage(pages, vpn)]
  {
    if pages[0].vpn != vpn {
      assert (pages + more)[1..] == pages[1..] + more;
      FirstPageAppend(pages[1..], more, vpn);
    }
  }

  lemma MapFaithful(s: State, more: seq<Page>)
    requires Faithful(s)
    ensures Faithful(s.(pages := s.pages + more))
  {
    forall j | 0 <= j < TLB_SIZE && s.tlb[j].valid
      ensures EntryFaithful(s.tlb[j], s.pages + more)
    {
      assert EntryFaithful(s.tlb[j], s.pages);
      FirstPageAppend(s.pages, more, s.tlb[j].vpn);
    }
  }

  datatype Event = Access(va: word, need: Purpose) | MapPages(vaBase: word, paBase: word, count: nat, perms: Perms)
    | FlushAll | FlushPage(va: word) | Configure(enabled: bool, satp: nat, user: bool)

  function Apply(s: State, mem: seq<byte>, e: Event): State {
    match e
    case Access(va, need) => Translate(s, mem, va, need).0
    case MapPages(vaBase, paBase, count, perms) => IdentityMap(s, vaBase, paBase, count, perms)
    case FlushAll => Flush(s)
    case FlushPage(va) => FlushVa(s, va)
    case Configure(enabled, satp, user) => s.(enabled := enabled, satp := satp, user := user)
  }

  function After(s: State, mem: seq<byte>, events: seq<Event>): State {
    if events == [] then s else Apply(After(s, mem, events[..|events| - 1]), mem, events[|events| - 1])
  }

  /** Every access happens in bare mode, whatever the settings are between accesses. */
  ghost predicate AccessesBare(s: State, mem: seq<byte>, events: seq<Event>) {
    forall i :: 0 <= i < |events| && events[i].Access? ==> InBareMode(After(s, mem, events[..i]))
  }

  lemma AccessesBareInit(s: State, mem: seq<byte>, events: seq<Event>)
    requires AccessesBare(s, mem, events) && events != []
    ensures AccessesBare(s, mem, events[..|events| - 1])
    ensures events[|events| - 1].Access? ==> InBareMode(After(s, mem, events[..|events| - 1]))
  {
    hide After, InBareMode;
    var init := events[..|events| - 1];
    forall i | 0 <= i < |init| && init[i].Access?
      ensures InBareMode(After(s, mem, init[..i]))
    {
      assert init[..i] == events[..i];
    }
  }

  lemma {:induction false} AfterFaithful(s: State, mem: seq<byte>, events: seq<Event>)
    requires Faithful(s) && AccessesBare(s, mem, events)
    ensures Faithful(After(s, mem, events))
  {
    hide Translate, EntryFaithful, Mapped, AccessesBare, InBareMode;
    if events != [] {
      AccessesBareInit(s, mem, events);
      var init := events[..|events| - 1];
      AfterFaithful(s, mem, init);
      var t := After(s, mem, init);
      match events[|events| - 1]
      case Access(va, need) => TranslateFaithful(t, mem, va, need);
      case MapPages(vaBase, paBase, count, perms) => MapFaithful(t, Mapped(vaBase, paBase, count, perms));
      case FlushAll =>
      case FlushPage(va) =>
      case Configure(enabled, satp, user) =>
    }
  }

  /** Correct without flushing: from an empty TLB, after any interleaving of maps, bare accesses, flushes and
      changes of mode, a single-purpose bare translation answers as the first mapped page does. */
  lemma BareModeCorrect(s: State, mem: seq<byte>, events: seq<Event>, va: word, need: Purpose)
    requires (forall j :: 0 <= j < TLB_SIZE ==> !s.tlb[j].valid) && AccessesBare(s, mem, events)
    requires InBareMode(After(s, mem, events)) && need.Single()
    ensures var t := After(s, mem, events);
      Translate(t, mem, va, need).1 == MapAnswer(t, va, need)
  {
    hide Translate, MapAnswer, After, AccessesBare, InBareMode;
    AfterFaithful(s, mem, events);
    TranslateIsMap(After(s, mem, events), mem, va, need);
  }
}
