/** The vector registers and the element-wise add: the scalar loop, the blocked host lowerings, and the one
    meaning they share under every aliasing of the registers. */
module Tensor {
  import opened Words

  const VEC_WIDTH: nat := 16
  const NUM_VR: nat := 8

  /** FP32 addition and multiplication on bit patterns; the kernels never look inside. */
  datatype Fpu = Fpu(add: (word, word) -> word, mul: (word, word) -> word)

  /** v0..v7, sixteen lanes each, in storage order. */
  type VecFile = s: seq<word> | |s| == 128 witness seq(128, _ => 0)

  function Lane(v: nat, i: nat): nat {
    16 * v + i
  }

  // ---------------------------------------------------------------- element-wise add

  /** vd with its first `c` lanes replaced by sums of the operands' original lanes. */
  function Added(fpu: Fpu, vr: VecFile, d: nat, a: nat, b: nat, c: nat): VecFile
    requires d < NUM_VR && a < NUM_VR && b < NUM_VR && c <= VEC_WIDTH
  {
    if c == 0 then vr
    else Added(fpu, vr, d, a, b, c - 1)[Lane(d, c - 1) := fpu.add(vr[Lane(a, c - 1)], vr[Lane(b, c - 1)])]
  }

  function VecAdded(fpu: Fpu, vr: VecFile, d: nat, a: nat, b: nat): VecFile
    requires d < NUM_VR && a < NUM_VR && b < NUM_VR
  {
    Added(fpu, vr, d, a, b, VEC_WIDTH)
  }

  lemma {:induction false} AddedFrame(fpu: Fpu, vr: VecFile, d: nat, a: nat, b: nat, c: nat, k: nat)
    requires d < NUM_VR && a < NUM_VR && b < NUM_VR && c <= VEC_WIDTH && k < 128
    requires !(Lane(d, 0) <= k < Lane(d, c))
    ensures Added(fpu, vr, d, a, b, c)[k] == vr[k]
  {
    if c > 0 {
      AddedFrame(fpu, vr, d, a, b, c - 1, k);
    }
  }

  /** Lanes not yet reached still hold their original value, whichever registers coincide. */
  lemma AddedPending(fpu: Fpu, vr: VecFile, d: nat, a: nat, b: nat, c: nat, v: nat, i: nat)
    requires d < NUM_VR && a < NUM_VR && b < NUM_VR && v < NUM_VR && c <= i < VEC_WIDTH
    ensures Added(fpu, vr, d, a, b, c)[Lane(v, i)] == vr[Lane(v, i)]
  {
    AddedFrame(fpu, vr, d, a, b, c, Lane(v, i));
  }

  /** Every lane of vd is the sum of the original lanes, under every aliasing; no other lane moves. */
  lemma {:induction false} VecAddedLanes(fpu: Fpu, vr: VecFile, d: nat, a: nat, b: nat, c: nat, k: nat)
    requires d < NUM_VR && a < NUM_VR && b < NUM_VR && c <= VEC_WIDTH && k < 128
    ensures Added(fpu, vr, d, a, b, c)[k] ==
            if Lane(d, 0) <= k < Lane(d, c)
            then fpu.add(vr[Lane(a, k - Lane(d, 0))], vr[Lane(b, k - Lane(d, 0))]) else vr[k]
  {
    if c > 0 {
      VecAddedLanes(fpu, vr, d, a, b, c - 1, k);
    }
  }

  method VecAddScalar(fpu: Fpu, vr: array<word>, d: nat, a: nat, b: nat)
    requires vr.Length == 128 && d < NUM_VR && a < NUM_VR && b < NUM_VR
    modifies vr
    ensures vr[..] == VecAdded(fpu, old(vr[..]), d, a, b)
  {
    ghost var was := vr[..];
    for i := 0 to VEC_WIDTH
      invariant vr[..] == Added(fpu, was, d, a, b, i)
    {
      AddedPending(fpu, was, d, a, b, i, a, i);
      AddedPending(fpu, was, d, a, b, i, b, i);
      vr[Lane(d, i)] := fpu.add(vr[..][Lane(a, i)], vr[..][Lane(b, i)]);
    }
  }

  /** The load half of a SIMD block: lanes not yet overwritten, so the original ones. */
  method LoadLanes(vr: array<word>, v: nat, from: nat, lanes: nat, ghost fpu: Fpu, ghost d: nat, ghost a: nat,
                   ghost b: nat, ghost was: VecFile)
    returns (x: seq<word>)
    requires vr.Length == 128 && d < NUM_VR && a < NUM_VR && b < NUM_VR && v < NUM_VR && from + lanes <= VEC_WIDTH
    requires vr[..] == Added(fpu, was, d, a, b, from)
    ensures |x| == lanes && forall i :: 0 <= i < lanes ==> x[i] == was[Lane(v, from + i)]
  {
    x := vr[..][Lane(v, from)..Lane(v, from) + lanes];
    forall i | 0 <= i < lanes
      ensures x[i] == was[Lane(v, from + i)]
    {
      AddedPending(fpu, was, d, a, b, from, v, from + i);
    }
  }

  /** The store half: lane after lane of the sums. */
  method StoreSums(vr: array<word>, x: seq<word>, y: seq<word>, fpu: Fpu, d: nat, from: nat, lanes: nat,
                   ghost a: nat, ghost b: nat, ghost was: VecFile)
    requires vr.Length == 128 && d < NUM_VR && a < NUM_VR && b < NUM_VR && from + lanes <= VEC_WIDTH
    requires vr[..] == Added(fpu, was, d, a, b, from)
    requires |x| == |y| == lanes
    requires forall i :: 0 <= i < lanes ==> x[i] == was[Lane(a, from + i)]
    requires forall i :: 0 <= i < lanes ==> y[i] == was[Lane(b, from + i)]
    modifies vr
    ensures vr[..] == Added(fpu, was, d, a, b, from + lanes)
  {
    for i := 0 to lanes
      invariant vr[..] == Added(fpu, was, d, a, b, from + i)
    {
      ghost var before := vr[..];
      vr[Lane(d, from + i)] := fpu.add(x[i], y[i]);
      assert vr[..] == before[Lane(d, from + i) := fpu.add(x[i], y[i])];
    }
  }

  /** One SIMD block: all `lanes` lanes of both sources are loaded before any lane is stored. */
  method AddBlock(fpu: Fpu, vr: array<word>, d: nat, a: nat, b: nat, from: nat, lanes: nat, ghost was: VecFile)
    requires vr.Length == 128 && d < NUM_VR && a < NUM_VR && b < NUM_VR && from + lanes <= VEC_WIDTH
    requires vr[..] == Added(fpu, was, d, a, b, from)
    modifies vr
    ensures vr[..] == Added(fpu, was, d, a, b, from + lanes)
  {
    var x := LoadLanes(vr, a, from, lanes, fpu, d, a, b, was);
    var y := LoadLanes(vr, b, from, lanes, fpu, d, a, b, was);
    StoreSums(vr, x, y, fpu, d, from, lanes, a, b, was);
  }

  /** AVX2 lowering: two blocks of eight lanes. */
  method VecAddAvx2(fpu: Fpu, vr: array<word>, d: nat, a: nat, b: nat)
    requires vr.Length == 128 && d < NUM_VR && a < NUM_VR && b < NUM_VR
    modifies vr
    ensures vr[..] == VecAdded(fpu, old(vr[..]), d, a, b)
  {
    AddBlock(fpu, vr, d, a, b, 0, 8, old(vr[..]));
    AddBlock(fpu, vr, d, a, b, 8, 8, old(vr[..]));
  }

  /** AVX-512 lowering: one block of sixteen lanes. */
  method VecAddAvx512(fpu: Fpu, vr: array<word>, d: nat, a: nat, b: nat)
    requires vr.Length == 128 && d < NUM_VR && a < NUM_VR && b < NUM_VR
    modifies vr
    ensures vr[..] == VecAdded(fpu, old(vr[..]), d, a, b)
  {
    AddBlock(fpu, vr, d, a, b, 0, 16, old(vr[..]));
  }

  /** NEON lowering: four blocks of four lanes. */
  method VecAddNeon(fpu: Fpu, vr: array<word>, d: nat, a: nat, b: nat)
    requires vr.Length == 128 && d < NUM_VR && a < NUM_VR && b < NUM_VR
    modifies vr
    ensures vr[..] == VecAdded(fpu, old(vr[..]), d, a, b)
  {
    AddBlock(fpu, vr, d, a, b, 0, 4, old(vr[..]));
    AddBlock(fpu, vr, d, a, b, 4, 4, old(vr[..]));
    AddBlock(fpu, vr, d, a, b, 8, 4, old(vr[..]));
    AddBlock(fpu, vr, d, a, b, 12, 4, old(vr[..]));
  }
}
