/** Sv39 as the architecture defines it (sections 4.3.2 and 4.4 of the RISC-V Privileged Architecture v1.12), and
    on exactly which page tables the MMU's walk answers as it does, fault causes included. */
module Sv39 {
  import opened Words
  import opened Mmu

  // ---------------------------------------------------------------- the architecture

  /** The two fields of mstatus that translation looks at. */
  datatype Mstatus = Mstatus(sum: bool, mxr: bool)

  datatype Outcome = Physical(pa: nat) | Exception(cause: Cause)

  /** satp.MODE; 8 selects Sv39. */
  function Mode(satp: nat): nat {
    satp / 0x1000_0000_0000_0000
  }

  predicate PteAccessed(raw: nat) { raw / 0x40 % 2 == 1 }
  predicate PteDirty(raw: nat) { raw / 0x80 % 2 == 1 }

  /** Bits 63 to 54, all reserved without the extensions Svnapot and Svpbmt. */
  predicate HighBits(raw: nat) { raw / 0x40_0000_0000_0000 != 0 }

  /** Writable without being readable: a reserved encoding. */
  predicate WriteOnly(raw: nat) {
    PtePerms(raw).w && !PtePerms(raw).r
  }

  /** Reserved bits of a pointer to the next table: also D, A and U. */
  predicate PointerBits(raw: nat) {
    HighBits(raw) || PteDirty(raw) || PteAccessed(raw) || PtePerms(raw).u
  }

  /** Pages under an entry of this level. */
  function PagesAt(level: nat): nat
    requires level <= 2
  {
    if level == 0 then 1 else if level == 1 then 0x200 else 0x4_0000
  }

  function AccessFault(need: Purpose): Cause {
    if need.fetch then FetchAccessFault else if need.write then StoreAccessFault else LoadAccessFault
  }

  /** May this privilege level use the page at all? A supervisor only with SUM set, and never to fetch. */
  predicate PrivilegeAllows(raw: nat, user: bool, st: Mstatus, need: Purpose) {
    if user then PtePerms(raw).u else PtePerms(raw).u ==> st.sum && !need.fetch
  }

  /** Do R, W and X allow the access? With MXR set a load needs R or X. */
  predicate BitsAllow(raw: nat, st: Mstatus, need: Purpose) {
    Grants(PtePerms(raw), need) || (!need.fetch && !need.write && st.mxr && PtePerms(raw).x)
  }

  /** A and D are not updated by hardware: A must be set, and D for a store. */
  predicate Updated(raw: nat, need: Purpose) {
    PteAccessed(raw) && (need.write ==> PteDirty(raw))
  }

  /** Steps 5 to 8 of the algorithm, at a leaf met on `level`. */
  function LeafOutcome(raw: nat, level: nat, va: word, user: bool, st: Mstatus, need: Purpose): Outcome
    requires level <= 2
  {
    if !PrivilegeAllows(raw, user, st, need) || !BitsAllow(raw, st, need) || PtePpn(raw) % PagesAt(level) != 0
       || !Updated(raw, need)
    then Exception(PurposeFault(need))
    else Physical((PtePpn(raw) + Vpn(va) % PagesAt(level)) * 0x1000 + va % 0x1000)
  }

  /** Steps 2 to 4, from the table at frame `ppn` down. */
  function Translated(mem: seq<byte>, ppn: nat, va: word, level: nat, user: bool, st: Mstatus, need: Purpose): Outcome
    requires level <= 2
    decreases level
  {
    var slot := Slot(ppn, va, level);
    if slot + 8 > |mem| then Exception(AccessFault(need))
    else
      var raw := Read64(mem, slot);
      if !PteValid(raw) || WriteOnly(raw) || HighBits(raw) then Exception(PurposeFault(need))
      else if PteLeaf(raw) then LeafOutcome(raw, level, va, user, st, need)
      else if PointerBits(raw) || level == 0 then Exception(PurposeFault(need))
      else Translated(mem, PtePpn(raw), va, level - 1, user, st, need)
  }

  /** The whole translation, for a satp that selects Sv39, in supervisor or user mode. */
  function Translation(mem: seq<byte>, satp: nat, va: word, user: bool, st: Mstatus, need: Purpose): Outcome
    requires Mode(satp) == 8
  {
    Translated(mem, Root(satp), va, 2, user, st, need)
  }

  /** The MMU's answer is the architecture's: the same physical address, all bits of it, or the same fault. */
  predicate Same(answer: Answer, x: Outcome) {
    match x
    case Physical(pa) => answer.At? && answer.pa == pa
    case Exception(cause) => answer == Fault(cause)
  }

  // ---------------------------------------------------------------- the MMU

  function Verdicted(v: Verdict, va: word): Answer {
    match v
    case Deny(cause, _) => Fault(cause)
    case Pass(raw) => At(Place(PtePpn(raw), va))
  }

  /** What the MMU's walk answers from the table at frame `ppn` down. */
  function Walked(mem: seq<byte>, ppn: nat, va: word, level: nat, user: bool, need: Purpose): Answer
    requires level <= 2
  {
    Verdicted(Judge(Descend(mem, ppn, va, level), user, need), va)
  }

  lemma WalkIsWalked(s: State, mem: seq<byte>, va: word, need: Purpose)
    ensures Walk(s, mem, va, need).1 == Walked(mem, Root(s.satp), va, 2, s.user, need)
  {
    hide Descend, Judge;
  }

  // ---------------------------------------------------------------- where the two agree

  predicate Loads(need: Purpose) {
    !need.write && !need.fetch
  }

  /** Everything Sv39 asks of a leaf beyond what the MMU asks: no reserved bit or encoding, A set, D set for a
      store, no user page from supervisor mode but with SUM; an aligned frame, the first 4 KiB of it, and a
      physical address of 32 bits. */
  predicate PlainLeaf(raw: nat, level: nat, va: word, user: bool, st: Mstatus, need: Purpose)
    requires level <= 2
  {
    && !WriteOnly(raw) && !HighBits(raw) && Updated(raw, need) && PrivilegeAllows(raw, user, st, need)
    && PtePpn(raw) % PagesAt(level) == 0 && Vpn(va) % PagesAt(level) == 0 && PtePpn(raw) < 0x10_0000
  }

  /** A load from a page that is executable only: MXR makes it readable, and the MMU knows no MXR. */
  predicate ReadableByMxr(raw: nat, level: nat, user: bool, st: Mstatus, need: Purpose)
    requires level <= 2
  {
    && Loads(need) && st.mxr && PtePerms(raw).x && !WriteOnly(raw) && !HighBits(raw)
    && Updated(raw, need) && PrivilegeAllows(raw, user, st, need) && PtePpn(raw) % PagesAt(level) == 0
  }

  /** At a leaf: an access the MMU permits needs a plain leaf; a user's access to a supervisor page is always
      reported as a load's; any other refusal is right but for MXR. */
  predicate LeafConforms(raw: nat, level: nat, va: word, user: bool, st: Mstatus, need: Purpose)
    requires level <= 2
  {
    match Judge(Leaf(raw), user, need)
    case Pass(_) => PlainLeaf(raw, level, va, user, st, need)
    case Deny(_, recorded) => if recorded then !ReadableByMxr(raw, level, user, st, need) else Loads(need)
  }

  /** Along the walk: a table outside memory, and a pointer where a leaf must be, are reported as a load's; a pointer
      with reserved bits is followed, and must lead to the page fault it should have been. */
  predicate Conforms(mem: seq<byte>, ppn: nat, va: word, level: nat, user: bool, st: Mstatus, need: Purpose)
    requires level <= 2
    decreases level
  {
    var slot := Slot(ppn, va, level);
    if slot + 8 > |mem| then Loads(need)
    else
      var raw := Read64(mem, slot);
      if !PteValid(raw) then true
      else if PteLeaf(raw) then LeafConforms(raw, level, va, user, st, need)
      else if level == 0 then Loads(need)
      else if PointerBits(raw) then
        Walked(mem, PtePpn(raw), va, level - 1, user, need) == Fault(PurposeFault(need))
      else Conforms(mem, PtePpn(raw), va, level - 1, user, st, need)
  }

  /** Physical addresses of 32 bits: the MMU's is Sv39's exactly on the first page of a frame below 4 GiB. */
  lemma PlaceIff(ppn: nat, pages: nat, va: word)
    requires 0 < pages <= 0x4_0000
    ensures Place(ppn, va) == (ppn + Vpn(va) % pages) * 0x1000 + va % 0x1000 <==>
      Vpn(va) % pages == 0 && ppn < 0x10_0000
  {
    var k, off := Vpn(va) % pages, va % 0x1000;
    hide Vpn;
    if ppn < 0x10_0000 {
      WrapIs(ppn * 0x1000 + off, 0);
    }
    hide Wrap;
  }

  lemma LeafIff(raw: nat, level: nat, va: word, user: bool, st: Mstatus, need: Purpose)
    requires level <= 2 && need.Single() && PteLeaf(raw)
    ensures Same(Verdicted(Judge(Leaf(raw), user, need), va),
                 if WriteOnly(raw) || HighBits(raw) then Exception(PurposeFault(need))
                 else LeafOutcome(raw, level, va, user, st, need)) <==>
      LeafConforms(raw, level, va, user, st, need)
  {
    PlaceIff(PtePpn(raw), PagesAt(level), va);
    hide PtePerms, PtePpn, HighBits, PteAccessed, PteDirty, PagesAt, Vpn, Place;
  }

  lemma {:induction false} DescentIff(
      mem: seq<byte>, ppn: nat, va: word, level: nat, user: bool, st: Mstatus, need: Purpose)
    requires level <= 2 && need.Single() && |mem| <= TWO32
    ensures Same(Walked(mem, ppn, va, level, user, need), Translated(mem, ppn, va, level, user, st, need)) <==>
      Conforms(mem, ppn, va, level, user, st, need)
    decreases level
  {
    hide Read64, PteValid, PteLeaf, PtePpn, PtePerms, PointerBits, HighBits, Slot, LeafOutcome, LeafConforms, Wrap;
    var slot := Slot(ppn, va, level);
    if slot + 8 <= |mem| {
      WrapIs(slot, 0);
      var raw := Read64(mem, slot);
      if PteValid(raw) {
        if PteLeaf(raw) {
          LeafIff(raw, level, va, user, st, need);
        } else {
          PointerBasics(raw);
          if level > 0 {
            DescentIff(mem, PtePpn(raw), va, level - 1, user, st, need);
          }
        }
      }
    }
  }

  lemma PointerBasics(raw: nat)
    requires !PteLeaf(raw)
    ensures !WriteOnly(raw) && (HighBits(raw) ==> PointerBits(raw))
  {
  }

  /** The MMU is Sv39, for a satp that selects it, on exactly the page tables that conform; page faults and access
      faults included. Its RAM is addressed in 32 bits. */
  lemma WalkIsSv39Iff(s: State, mem: seq<byte>, va: word, st: Mstatus, need: Purpose)
    requires Mode(s.satp) == 8 && need.Single() && |mem| <= TWO32
    ensures Same(Walk(s, mem, va, need).1, Translation(mem, s.satp, va, s.user, st, need)) <==>
      Conforms(mem, Root(s.satp), va, 2, s.user, st, need)
  {
    hide Walk, Walked, Translated, Conforms;
    WalkIsWalked(s, mem, va, need);
    DescentIff(mem, Root(s.satp), va, 2, s.user, st, need);
  }

  // ---------------------------------------------------------------- permitted accesses

  /** No pointer on the way to the leaf has reserved bits. */
  predicate PlainPath(mem: seq<byte>, ppn: nat, va: word, level: nat)
    requires level <= 2
    decreases level
  {
    var slot := Slot(ppn, va, level);
    slot + 8 <= |mem|
    && var raw := Read64(mem, slot);
      PteLeaf(raw) || (level > 0 && !PointerBits(raw) && PlainPath(mem, PtePpn(raw), va, level - 1))
  }

  /** The level on which the walk from `level` down ends, with its leaf if it finds one. */
  function LeafLevel(mem: seq<byte>, ppn: nat, va: word, level: nat): (l: nat)
    requires level <= 2
    ensures l <= level
    decreases level
  {
    var slot := Slot(ppn, va, level);
    if level == 0 || slot + 8 > |mem| then level
    else
      var raw := Read64(mem, slot);
      if !PteValid(raw) || PteLeaf(raw) then level else LeafLevel(mem, PtePpn(raw), va, level - 1)
  }

  lemma {:induction false} PermittedConforms(
      mem: seq<byte>, ppn: nat, va: word, level: nat, user: bool, st: Mstatus, need: Purpose)
    requires level <= 2 && |mem| <= TWO32 && Judge(Descend(mem, ppn, va, level), user, need).Pass?
    ensures Conforms(mem, ppn, va, level, user, st, need) <==>
      PlainPath(mem, ppn, va, level)
      && PlainLeaf(Descend(mem, ppn, va, level).raw, LeafLevel(mem, ppn, va, level), va, user, st, need)
    decreases level
  {
    hide Read64, PteValid, PteLeaf, PtePpn, PtePerms, PointerBits, PlainLeaf, Slot, Wrap, ReadableByMxr;
    var slot := Slot(ppn, va, level);
    WrapIs(slot, 0);
    var raw := Read64(mem, slot);
    if !PteLeaf(raw) {
      PermittedConforms(mem, PtePpn(raw), va, level - 1, user, st, need);
    }
  }

  /** An access the MMU permits is translated as Sv39 translates it exactly when no pointer on the way has reserved
      bits and the leaf is plain. */
  lemma PermittedIsSv39Iff(s: State, mem: seq<byte>, va: word, st: Mstatus, need: Purpose)
    requires Mode(s.satp) == 8 && need.Single() && |mem| <= TWO32
    requires Judge(FindLeaf(mem, s.satp, va), s.user, need).Pass?
    ensures var raw, level := FindLeaf(mem, s.satp, va).raw, LeafLevel(mem, Root(s.satp), va, 2);
      Same(Walk(s, mem, va, need).1, Translation(mem, s.satp, va, s.user, st, need)) <==>
        PlainPath(mem, Root(s.satp), va, 2) && PlainLeaf(raw, level, va, s.user, st, need)
  {
    WalkIsSv39Iff(s, mem, va, st, need);
    PermittedConforms(mem, Root(s.satp), va, 2, s.user, st, need);
    hide Walk, Translation, Conforms, Descend, PlainPath, LeafLevel, PlainLeaf, Judge;
  }

  // ---------------------------------------------------------------- failing inputs

  /** The entry at `at` is a small number. */
  predicate SmallEntry(mem: seq<byte>, at: nat, raw: byte) {
    at + 8 <= |mem| && mem[at] == raw && forall k :: at < k < at + 8 ==> mem[k] == 0
  }

  lemma SmallRead(mem: seq<byte>, at: nat, raw: byte)
    requires SmallEntry(mem, at, raw)
    ensures Read64(mem, at) == raw
  {
    LowByte(mem, at);
    LowByte(mem, at + 4);
    hide Read32;
  }

  lemma LowByte(mem: seq<byte>, at: nat)
    requires at + 4 <= |mem| && mem[at + 1] == 0 && mem[at + 2] == 0 && mem[at + 3] == 0
    ensures Read32(mem, at) == mem[at]
  {
  }

  /** Memory whose first two entries are a pointer to frame 0 and `leaf`. */
  predicate TinyTable(mem: seq<byte>, leaf: byte) {
    |mem| <= TWO32 && SmallEntry(mem, 0, 1) && SmallEntry(mem, 8, leaf)
  }

  lemma TinyEntry(mem: seq<byte>, leaf: byte, at: nat)
    requires TinyTable(mem, leaf) && (at == 0 || at == 8)
    ensures at + 8 <= |mem| && Read64(mem, at) == if at == 0 then 1 else leaf
  {
    SmallRead(mem, at, if at == 0 then 1 else leaf);
    hide Read64;
  }

  lemma TinySlot(ppn: nat, va: word, level: nat)
    requires ppn == 0 && va == 0x1000 && level <= 2
    ensures Slot(ppn, va, level) == if level == 0 then 8 else 0
  {
    Quotient(va, 0x1000, 1, 0);
    Quotient(va, 0x20_0000, 0, va);
    Quotient(va, 0x4000_0000, 0, va);
    Quotient(va / 0x1000, 0x200, 0, 1);
    Quotient(va / 0x20_0000, 0x200, 0, 0);
    Quotient(va / 0x4000_0000, 0x200, 0, 0);
  }

  lemma PointerToRoot(raw: nat)
    requires raw == 1
    ensures PteValid(raw) && !PteLeaf(raw) && PtePpn(raw) == 0 && !PointerBits(raw) && !WriteOnly(raw) && !HighBits(raw)
  {
  }

  /** All three levels are the one table; page 1 is its second entry. */
  lemma {:induction false} TinyWalk(
      mem: seq<byte>, leaf: byte, user: bool, st: Mstatus, need: Purpose, ppn: nat, va: word, level: nat)
    requires TinyTable(mem, leaf) && ppn == 0 && va == 0x1000 && level <= 2 && PteValid(leaf) && PteLeaf(leaf)
    ensures Descend(mem, ppn, va, level) == Leaf(leaf)
    ensures Translated(mem, ppn, va, level, user, st, need) ==
      if WriteOnly(leaf) || HighBits(leaf) then Exception(PurposeFault(need))
      else LeafOutcome(leaf, 0, va, user, st, need)
    decreases level
  {
    hide Read64, LeafOutcome, Slot, PteValid, PteLeaf, PtePpn, PointerBits, WriteOnly, HighBits, Wrap;
    var at := Slot(ppn, va, level);
    TinySlot(ppn, va, level);
    TinyEntry(mem, leaf, at);
    WrapIs(at, 0);
    if level > 0 {
      PointerToRoot(Read64(mem, at));
      TinyWalk(mem, leaf, user, st, need, PtePpn(Read64(mem, at)), va, level - 1);
    }
  }

  lemma TinyLeaf(leaf: byte, user: bool, st: Mstatus, need: Purpose, va: word, level: nat)
    requires (leaf == 5 || leaf == 7) && need.write && !need.fetch && !user && va == 0x1000 && level == 0
    ensures PteValid(leaf) && PteLeaf(leaf) && Judge(Leaf(leaf), user, need) == Pass(leaf) && Place(PtePpn(leaf), va) == 0
    ensures WriteOnly(leaf) || HighBits(leaf) || LeafOutcome(leaf, level, va, user, st, need).Exception?
  {
  }

  /** A leaf's only exception is the page fault of the access. */
  lemma LeafFaults(raw: nat, va: word, user: bool, st: Mstatus, need: Purpose)
    ensures var x := LeafOutcome(raw, 0, va, user, st, need); x.Exception? ==> x.cause == PurposeFault(need)
  {
  }

  /** A store through a page that is writable only (V and W), or readable and writable but never accessed or
      written (V, R and W), succeeds in the MMU and is a store page fault in Sv39. */
  lemma StoreMustFault(s: State, mem: seq<byte>, leaf: byte, st: Mstatus, va: word, need: Purpose)
    requires TinyTable(mem, leaf) && (leaf == 5 || leaf == 7) && va == 0x1000 && need.write && !need.fetch
    requires Mode(s.satp) == 8 && Root(s.satp) == 0 && !s.user
    ensures Walk(s, mem, va, need).1 == At(0)
    ensures Translation(mem, s.satp, va, s.user, st, need) == Exception(StorePageFault)
  {
    hide PteValid, PteLeaf, PtePpn, Judge, Place, WriteOnly, HighBits, Descend, Translated, LeafOutcome, TinyTable;
    hide Mode, Root;
    TinyLeaf(leaf, s.user, st, need, va, 0);
    TinyWalk(mem, leaf, s.user, st, need, Root(s.satp), va, 2);
    LeafFaults(leaf, va, s.user, st, need);
  }
}
