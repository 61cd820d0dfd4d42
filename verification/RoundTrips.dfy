/** What the memory opcodes promise as pairs: stored values come back, and only where they were stored. */
module RoundTrips {
  import opened Words
  import opened Isa
  import opened Tensor
  import opened Machine
  import Fabric

  /** A STORE followed by a LOAD from the same plain address gives the stored register back, and the store
      changes no other byte. */
  lemma StoreThenLoad(m: Machine, store: word, load: word)
    requires Ra(store) < NUM_GPR && Rd(store) < NUM_GPR && Ra(load) < NUM_GPR && 0 < Rd(load) < NUM_GPR
    requires var at := Effective(m, store); at + 4 <= |m.a.mem| && !InTimer(at) && !InUart(at)
    requires Effective(m, load) == Effective(m, store)
    ensures ExecStore(m, store).Done?
    ensures var at, m1 := Effective(m, store), ExecStore(m, store).m;
      && (forall k :: 0 <= k < |m.a.mem| && !(at <= k < at + 4) ==> m1.a.mem[k] == m.a.mem[k])
      && ExecLoad(m1, load).Done?
      && ReadGpr(ExecLoad(m1, load).m.a.gpr, Rd(load)) == ReadGpr(m.a.gpr, Rd(store))
  {
    hide Rd, Ra, Simm16, Wrap, Read32;
    var at := Effective(m, store);
    ReadOverWrite(m.a.mem, at, ReadGpr(m.a.gpr, Rd(store)));
    var m1 := ExecStore(m, store).m;
    assert Effective(m1, load) == at;
    hide Write32;
  }

  /** The bytes of a lane are its little-endian word. */
  lemma LaneWord(vr: VecFile, v: nat, mem: seq<byte>, at: nat, i: nat)
    requires v < NUM_VR && at + VR_BYTE_SIZE <= |mem| && i < VEC_WIDTH
    ensures Read32(Splice(mem, at, LaneBytes(vr, v)), at + 4 * i) == vr[Lane(v, i)]
  {
    var bytes := LaneBytes(vr, v);
    var out := Splice(mem, at, bytes);
    var four := Bytes4(vr[Lane(v, i)]);
    forall b | 0 <= b < 4
      ensures out[at + 4 * i + b] == four[b]
    {
      LaneByte(i, b);
      assert out[at + (4 * i + b)] == bytes[4 * i + b];
    }
    hide Splice, LaneBytes, Bytes4;
    assert out[at + 4 * i + 0] == four[0] && out[at + 4 * i + 1] == four[1];
    assert out[at + 4 * i + 2] == four[2] && out[at + 4 * i + 3] == four[3];
    Word4Bytes4(vr[Lane(v, i)]);
  }

  lemma LaneByte(i: nat, b: nat)
    requires b < 4
    ensures (4 * i + b) / 4 == i && (4 * i + b) % 4 == b
  {
  }

  /** Spilling a vector register with STORE_VR and reloading it with LOAD_VR, into the same register or
      another, reproduces its sixteen lanes and leaves the other registers alone. */
  lemma SpillThenReload(m: Machine, store: word, load: word)
    requires Ra(store) < NUM_GPR && Rd(store) < NUM_VR && Ra(load) < NUM_GPR && Rd(load) < NUM_VR
    requires Effective(m, store) + VR_BYTE_SIZE <= |m.a.mem| && Effective(m, load) == Effective(m, store)
    ensures ExecStoreVr(m, store).Done?
    ensures var m1 := ExecStoreVr(m, store).m;
      && ExecLoadVr(m1, load).Done?
      && var vr' := ExecLoadVr(m1, load).m.a.vr;
        && (forall i :: 0 <= i < VEC_WIDTH ==> vr'[Lane(Rd(load), i)] == m.a.vr[Lane(Rd(store), i)])
        && (forall k :: 0 <= k < 128 && !(Lane(Rd(load), 0) <= k < Lane(Rd(load), VEC_WIDTH)) ==> vr'[k] == m.a.vr[k])
  {
    hide Rd, Ra, Simm16, Wrap, Read32, Splice, LaneBytes;
    var m1 := ExecStoreVr(m, store).m;
    var at := Effective(m, store);
    assert Effective(m1, load) == at && m1.a.vr == m.a.vr;
    Reloaded(m.a.vr, Rd(store), Rd(load), m.a.mem, at);
    hide LanesFrom;
  }

  lemma Reloaded(vr: VecFile, v: nat, u: nat, mem: seq<byte>, at: nat)
    requires v < NUM_VR && u < NUM_VR && at + VR_BYTE_SIZE <= |mem|
    ensures var vr' := LanesFrom(vr, u, Splice(mem, at, LaneBytes(vr, v)), at);
      && (forall i :: 0 <= i < VEC_WIDTH ==> vr'[Lane(u, i)] == vr[Lane(v, i)])
      && (forall k :: 0 <= k < 128 && !(Lane(u, 0) <= k < Lane(u, VEC_WIDTH)) ==> vr'[k] == vr[k])
  {
    hide Read32, LaneBytes;
    var stored := Splice(mem, at, LaneBytes(vr, v));
    hide Splice;
    var vr' := LanesFrom(vr, u, stored, at);
    forall i | 0 <= i < VEC_WIDTH
      ensures vr'[Lane(u, i)] == vr[Lane(v, i)]
    {
      LaneWord(vr, v, mem, at, i);
      assert vr'[Lane(u, i)] == Read32(stored, at + 4 * i);
    }
  }

  lemma SpliceBack(mem: seq<byte>, at: nat, n: nat, mem': seq<byte>)
    requires at + n <= |mem| == |mem'|
    requires forall k :: 0 <= k < |mem| && !(at <= k < at + n) ==> mem'[k] == mem[k]
    ensures Splice(mem', at, mem[at..at + n]) == mem
  {
  }

  /** A DMA_STORE out of the scratchpad and a DMA_LOAD of the same block back restore the scratchpad, however
      the block was overwritten in between. */
  lemma DmaOutAndBack(c: Config, m: Machine, out: word, back: word, m': Machine)
    requires Op(out).DmaStore? && ExecDmaStore(c, m, out).Done?
    requires Ra(out) < NUM_GPR && Rd(out) < NUM_GPR && Rd(back) == Ra(out) && Ra(back) == Rd(out) && Func(back) == Func(out)
    requires m'.a.gpr == m.a.gpr && m'.a.ram == ExecDmaStore(c, m, out).m.a.ram && |m'.a.mem| == |m.a.mem|
    requires var src := ReadGpr(m.a.gpr, Ra(out));
      forall k :: 0 <= k < |m.a.mem| && !(src <= k < src + Func(out)) ==> m'.a.mem[k] == m.a.mem[k]
    ensures ExecDmaLoad(c, m', back).Done? && ExecDmaLoad(c, m', back).m.a.mem == m.a.mem
  {
    hide ProfileWeight, Record, Rd, Ra, Func, Fabric.Issue;
    var dest, src, n := ReadGpr(m.a.gpr, Rd(out)), ReadGpr(m.a.gpr, Ra(out)), Func(out);
    var ram' := Splice(m.a.ram, dest, m.a.mem[src..src + n]);
    assert ram'[dest..dest + n] == m.a.mem[src..src + n];
    SpliceBack(m.a.mem, src, n, m'.a.mem);
    hide Splice;
  }
}
