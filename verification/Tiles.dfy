/** The tile multiply: scalar loops and host lowering, and when what they compute is the matrix product. */
module Tiles {
  import opened Words
  import opened Tensor

  const TILE_SIZE: nat := 4

  // ---------------------------------------------------------------- the loops

  /** Position of cell (i, j) in an n-by-n row-major tile. */
  function Cell(n: nat, i: nat, j: nat): (c: nat)
    requires n <= TILE_SIZE && i < n && j < n
    ensures c < VEC_WIDTH
  {
    CellBounds(n, i, j);
    i * n + j
  }

  lemma CellBounds(n: nat, i: nat, j: nat)
    requires n <= TILE_SIZE && i < n && j < n
    ensures i * n + j < n * n <= VEC_WIDTH
  {
    assert n == 1 || n == 2 || n == 3 || n == 4;
  }

  lemma CellsDistinct(n: nat, i: nat, j: nat, i': nat, j': nat)
    requires n <= TILE_SIZE && i < n && j < n && i' < n && j' < n
    ensures Cell(n, i, j) == Cell(n, i', j') <==> i == i' && j == j'
  {
    assert n == 1 || n == 2 || n == 3 || n == 4;
  }

  /** The first `k` terms, in order, of row i of the n-by-n tile va times column j of vb. */
  function Dot(fpu: Fpu, vr: VecFile, a: nat, b: nat, n: nat, i: nat, j: nat, k: nat): word
    requires a < NUM_VR && b < NUM_VR && n <= TILE_SIZE && i < n && j < n && k <= n
  {
    if k == 0 then 0
    else fpu.add(Dot(fpu, vr, a, b, n, i, j, k - 1),
                 fpu.mul(vr[Lane(a, Cell(n, i, k - 1))], vr[Lane(b, Cell(n, k - 1, j))]))
  }

  /** The register file after the first i rows and j more cells of the next one, each cell written
      in turn: later cells read whatever the earlier ones left in va and vb. */
  function Tiled(fpu: Fpu, vr: VecFile, d: nat, a: nat, b: nat, n: nat, i: nat, j: nat): VecFile
    requires d < NUM_VR && a < NUM_VR && b < NUM_VR && n <= TILE_SIZE && i <= n && j <= n && (j > 0 ==> i < n)
    decreases i, j
  {
    if j > 0 then
      var w := Tiled(fpu, vr, d, a, b, n, i, j - 1);
      w[Lane(d, Cell(n, i, j - 1)) := Dot(fpu, w, a, b, n, i, j - 1, n)]
    else if i > 0 then Tiled(fpu, vr, d, a, b, n, i - 1, n)
    else vr
  }

  function MatmulTiled(fpu: Fpu, vr: VecFile, d: nat, a: nat, b: nat, n: nat): VecFile
    requires d < NUM_VR && a < NUM_VR && b < NUM_VR && n <= TILE_SIZE
  {
    Tiled(fpu, vr, d, a, b, n, n, 0)
  }

  method DotLoop(fpu: Fpu, vr: array<word>, a: nat, b: nat, n: nat, i: nat, j: nat) returns (sum: word)
    requires vr.Length == 128 && a < NUM_VR && b < NUM_VR && n <= TILE_SIZE && i < n && j < n
    ensures sum == Dot(fpu, vr[..], a, b, n, i, j, n)
  {
    sum := 0;
    for k := 0 to n
      invariant sum == Dot(fpu, vr[..], a, b, n, i, j, k)
    {
      sum := fpu.add(sum, fpu.mul(vr[Lane(a, Cell(n, i, k))], vr[Lane(b, Cell(n, k, j))]));
    }
  }

  method MatmulScalar(fpu: Fpu, vr: array<word>, d: nat, a: nat, b: nat, n: nat)
    requires vr.Length == 128 && d < NUM_VR && a < NUM_VR && b < NUM_VR && n <= TILE_SIZE
    modifies vr
    ensures vr[..] == MatmulTiled(fpu, old(vr[..]), d, a, b, n)
  {
    ghost var was := vr[..];
    for i := 0 to n
      invariant vr[..] == Tiled(fpu, was, d, a, b, n, i, 0)
    {
      for j := 0 to n
        invariant vr[..] == Tiled(fpu, was, d, a, b, n, i, j)
      {
        StoreCell(fpu, vr, d, a, b, n, i, j, was);
      }
    }
  }

  /** One inner iteration of the tile loops: the dot product is stored into its cell. */
  method StoreCell(fpu: Fpu, vr: array<word>, d: nat, a: nat, b: nat, n: nat, i: nat, j: nat, ghost was: VecFile)
    requires vr.Length == 128 && d < NUM_VR && a < NUM_VR && b < NUM_VR && n <= TILE_SIZE && i < n && j < n
    requires vr[..] == Tiled(fpu, was, d, a, b, n, i, j)
    modifies vr
    ensures vr[..] == Tiled(fpu, was, d, a, b, n, i, j + 1)
  {
    ghost var before := vr[..];
    var sum := DotLoop(fpu, vr, a, b, n, i, j);
    vr[Lane(d, Cell(n, i, j))] := sum;
    assert vr[..] == before[Lane(d, Cell(n, i, j)) := sum];
  }

  /** The host lowering: full tiles use the same loops with constant bounds, smaller ones fall back. */
  method MatmulHost(fpu: Fpu, vr: array<word>, d: nat, a: nat, b: nat, n: nat)
    requires vr.Length == 128 && d < NUM_VR && a < NUM_VR && b < NUM_VR && n <= TILE_SIZE
    modifies vr
    ensures vr[..] == MatmulTiled(fpu, old(vr[..]), d, a, b, n)
  {
    if n == 4 {
      ghost var was := vr[..];
      for i := 0 to 4
        invariant vr[..] == Tiled(fpu, was, d, a, b, 4, i, 0)
      {
        for j := 0 to 4
          invariant vr[..] == Tiled(fpu, was, d, a, b, 4, i, j)
        {
          StoreCell(fpu, vr, d, a, b, 4, i, j, was);
        }
      }
    } else {
      MatmulScalar(fpu, vr, d, a, b, n);
    }
  }

  // ---------------------------------------------------------------- what a tile multiply computes

  /** A dot product reads only va and vb. */
  lemma {:induction false} DotFrame(fpu: Fpu, vr: VecFile, w: VecFile, a: nat, b: nat, n: nat, i: nat, j: nat, k: nat)
    requires a < NUM_VR && b < NUM_VR && n <= TILE_SIZE && i < n && j < n && k <= n
    requires forall l :: 0 <= l < VEC_WIDTH ==> w[Lane(a, l)] == vr[Lane(a, l)] && w[Lane(b, l)] == vr[Lane(b, l)]
    ensures Dot(fpu, w, a, b, n, i, j, k) == Dot(fpu, vr, a, b, n, i, j, k)
  {
    if k > 0 {
      DotFrame(fpu, vr, w, a, b, n, i, j, k - 1);
    }
  }

  /** A position that is no cell of vd's tile keeps its value throughout. */
  lemma {:induction false} TiledFrame(fpu: Fpu, vr: VecFile, d: nat, a: nat, b: nat, n: nat, i: nat, j: nat, k: nat)
    requires d < NUM_VR && a < NUM_VR && b < NUM_VR && n <= TILE_SIZE && i <= n && j <= n && (j > 0 ==> i < n)
    requires k < 128 && forall i', j' :: 0 <= i' < n && 0 <= j' < n ==> k != Lane(d, Cell(n, i', j'))
    ensures Tiled(fpu, vr, d, a, b, n, i, j)[k] == vr[k]
    decreases i, j
  {
    if j > 0 {
      TiledFrame(fpu, vr, d, a, b, n, i, j - 1, k);
    } else if i > 0 {
      TiledFrame(fpu, vr, d, a, b, n, i - 1, n, k);
    }
  }

  /** With vd distinct from its sources, va and vb stay what they were throughout. */
  lemma TiledSources(fpu: Fpu, vr: VecFile, d: nat, a: nat, b: nat, n: nat, i: nat, j: nat)
    requires d < NUM_VR && a < NUM_VR && b < NUM_VR && n <= TILE_SIZE && i <= n && j <= n && (j > 0 ==> i < n)
    requires d != a && d != b
    ensures var w := Tiled(fpu, vr, d, a, b, n, i, j);
      forall l :: 0 <= l < VEC_WIDTH ==> w[Lane(a, l)] == vr[Lane(a, l)] && w[Lane(b, l)] == vr[Lane(b, l)]
  {
    forall l | 0 <= l < VEC_WIDTH
      ensures Tiled(fpu, vr, d, a, b, n, i, j)[Lane(a, l)] == vr[Lane(a, l)]
      ensures Tiled(fpu, vr, d, a, b, n, i, j)[Lane(b, l)] == vr[Lane(b, l)]
    {
      TiledFrame(fpu, vr, d, a, b, n, i, j, Lane(a, l));
      TiledFrame(fpu, vr, d, a, b, n, i, j, Lane(b, l));
    }
  }

  /** Once written, cell (p, q) holds its dot product over the original sources. */
  lemma {:induction false} TiledCell(fpu: Fpu, vr: VecFile, d: nat, a: nat, b: nat, n: nat, i: nat, j: nat, p: nat, q: nat)
    requires d < NUM_VR && a < NUM_VR && b < NUM_VR && n <= TILE_SIZE && i <= n && j <= n && (j > 0 ==> i < n)
    requires d != a && d != b && p < n && q < n && (p < i || (p == i && q < j))
    ensures Tiled(fpu, vr, d, a, b, n, i, j)[Lane(d, Cell(n, p, q))] == Dot(fpu, vr, a, b, n, p, q, n)
    decreases i, j
  {
    if j == 0 {
      TiledCell(fpu, vr, d, a, b, n, i - 1, n, p, q);
    } else if p == i && q == j - 1 {
      TiledSources(fpu, vr, d, a, b, n, i, j - 1);
      DotFrame(fpu, vr, Tiled(fpu, vr, d, a, b, n, i, j - 1), a, b, n, p, q, n);
    } else {
      TiledCell(fpu, vr, d, a, b, n, i, j - 1, p, q);
      CellsDistinct(n, i, j - 1, p, q);
    }
  }

  /** `w` is `vr` with the n-by-n tile of vd replaced by the product of the tiles va and vb were in `vr`. */
  ghost predicate IsProduct(fpu: Fpu, vr: VecFile, w: VecFile, d: nat, a: nat, b: nat, n: nat)
    requires d < NUM_VR && a < NUM_VR && b < NUM_VR && n <= TILE_SIZE
  {
    && (forall i, j :: 0 <= i < n && 0 <= j < n ==> w[Lane(d, Cell(n, i, j))] == Dot(fpu, vr, a, b, n, i, j, n))
    && (forall k :: 0 <= k < 128 && !(Lane(d, 0) <= k < Lane(d, n * n)) ==> w[k] == vr[k])
  }

  /** With vd distinct from its sources the result is the matrix product of the sources, and
      nothing outside the first n*n lanes of vd changes. */
  lemma MatmulIsProduct(fpu: Fpu, vr: VecFile, d: nat, a: nat, b: nat, n: nat)
    requires d < NUM_VR && a < NUM_VR && b < NUM_VR && n <= TILE_SIZE
    requires d != a && d != b
    ensures IsProduct(fpu, vr, MatmulTiled(fpu, vr, d, a, b, n), d, a, b, n)
  {
    forall i, j | 0 <= i < n && 0 <= j < n
      ensures MatmulTiled(fpu, vr, d, a, b, n)[Lane(d, Cell(n, i, j))] == Dot(fpu, vr, a, b, n, i, j, n)
    {
      TiledCell(fpu, vr, d, a, b, n, n, 0, i, j);
    }
    forall k | 0 <= k < 128 && !(Lane(d, 0) <= k < Lane(d, n * n))
      ensures MatmulTiled(fpu, vr, d, a, b, n)[k] == vr[k]
    {
      forall i, j | 0 <= i < n && 0 <= j < n
        ensures k != Lane(d, Cell(n, i, j))
      {
        CellBounds(n, i, j);
      }
      TiledFrame(fpu, vr, d, a, b, n, n, 0, k);
    }
  }

  // ---------------------------------------------------------------- when it is a product

  /** Tiles of at most one cell are products under every aliasing. */
  lemma UnitTileIsProduct(fpu: Fpu, vr: VecFile, d: nat, a: nat, b: nat, n: nat)
    requires d < NUM_VR && a < NUM_VR && b < NUM_VR && n <= 1
    ensures IsProduct(fpu, vr, MatmulTiled(fpu, vr, d, a, b, n), d, a, b, n)
  {
    assert Tiled(fpu, vr, d, a, b, n, 0, 0) == vr;
    if n == 1 {
      assert Tiled(fpu, vr, d, a, b, n, 0, n) == vr[Lane(d, 0) := Dot(fpu, vr, a, b, n, 0, 0, n)];
      assert MatmulTiled(fpu, vr, d, a, b, n) == Tiled(fpu, vr, d, a, b, n, 0, n);
    }
  }

  /** Bit patterns for zero to seven that the unit adds, and multiplies by one, exactly: FP32 has them. */
  predicate Counts(fpu: Fpu, num: seq<word>) {
    && |num| == 8 && num[0] == 0
    && (forall i, j :: 0 <= i < j < 8 ==> num[i] != num[j])
    && (forall i, j :: 0 <= i < 8 && 0 <= j < 8 - i ==> fpu.add(num[i], num[j]) == num[i + j])
    && (forall i :: 0 <= i < 8 ==> fpu.mul(num[i], num[1]) == num[i] && fpu.mul(num[1], num[i]) == num[i])
  }

  /** A dot product whose terms are all one, but for the first, which is v. */
  lemma {:induction false} DotCounts(fpu: Fpu, num: seq<word>, vr: VecFile, a: nat, b: nat, n: nat, i: nat, j: nat,
                                     k: nat, v: nat)
    requires a < NUM_VR && b < NUM_VR && n <= TILE_SIZE && i < n && j < n && 0 < k <= n
    requires Counts(fpu, num) && v + k <= 8
    requires fpu.mul(vr[Lane(a, Cell(n, i, 0))], vr[Lane(b, Cell(n, 0, j))]) == num[v]
    requires forall l :: 0 < l < n ==> vr[Lane(a, Cell(n, i, l))] == num[1] && vr[Lane(b, Cell(n, l, j))] == num[1]
    ensures Dot(fpu, vr, a, b, n, i, j, k) == num[v + k - 1]
    decreases k
  {
    if k == 1 {
      assert Dot(fpu, vr, a, b, n, i, j, k - 1) == num[0];
    } else {
      DotCounts(fpu, num, vr, a, b, n, i, j, k - 1, v);
    }
  }

  /** A cell keeps what was written into it. */
  lemma {:induction false} CellStays(fpu: Fpu, vr: VecFile, d: nat, a: nat, b: nat, n: nat, i: nat, j: nat, p: nat, q: nat)
    requires d < NUM_VR && a < NUM_VR && b < NUM_VR && n <= TILE_SIZE && i <= n && j <= n && (j > 0 ==> i < n)
    requires p < n && q < n && (p < i || (p == i && q < j))
    ensures Tiled(fpu, vr, d, a, b, n, i, j)[Lane(d, Cell(n, p, q))]
         == Dot(fpu, Tiled(fpu, vr, d, a, b, n, p, q), a, b, n, p, q, n)
    decreases i, j
  {
    hide Dot;
    if j == 0 {
      CellStays(fpu, vr, d, a, b, n, i - 1, n, p, q);
    } else if p != i || q != j - 1 {
      CellStays(fpu, vr, d, a, b, n, i, j - 1, p, q);
      CellsDistinct(n, i, j - 1, p, q);
    }
  }

  /** In the first row, lanes not yet reached hold what they held. */
  lemma {:induction false} FirstRowPending(fpu: Fpu, vr: VecFile, d: nat, a: nat, b: nat, n: nat, i: nat, j: nat, k: nat)
    requires d < NUM_VR && a < NUM_VR && b < NUM_VR && n <= TILE_SIZE && i == 0 && j <= n && (j > 0 ==> i < n)
    requires k < 128 && !(Lane(d, 0) <= k < Lane(d, j))
    ensures Tiled(fpu, vr, d, a, b, n, i, j)[k] == vr[k]
    decreases j
  {
    hide Dot;
    if j > 0 {
      FirstRowPending(fpu, vr, d, a, b, n, i, j - 1, k);
      assert Cell(n, i, j - 1) == j - 1;
    }
  }

  /** On tiles of ones the first cell becomes n ... */
  lemma FirstCell(fpu: Fpu, num: seq<word>, vr: VecFile, a: nat, b: nat, n: nat, i: nat, j: nat)
    requires a < NUM_VR && b < NUM_VR && 0 < n <= TILE_SIZE && i < n && j < n && Counts(fpu, num)
    requires forall k :: 0 <= k < 128 ==> vr[k] == num[1]
    ensures Dot(fpu, vr, a, b, n, i, j, n) == num[n]
  {
    DotCounts(fpu, num, vr, a, b, n, i, j, n, 1);
  }

  /** ... and, va being vd, the one to its right reads that back and becomes 2n - 1. */
  lemma RowReadsBack(fpu: Fpu, num: seq<word>, vr: VecFile, d: nat, b: nat, n: nat, i: nat)
    requires d < NUM_VR && b < NUM_VR && 2 <= n <= TILE_SIZE && i == 0 && Counts(fpu, num)
    requires forall k :: 0 <= k < 128 ==> vr[k] == num[1]
    ensures MatmulTiled(fpu, vr, d, d, b, n)[Lane(d, Cell(n, i, 1))] == num[2 * n - 1]
  {
    hide Dot;
    var w := Tiled(fpu, vr, d, d, b, n, i, 1);
    FirstCell(fpu, num, vr, d, b, n, i, 0);
    assert Tiled(fpu, vr, d, d, b, n, i, 0) == vr;
    CellStays(fpu, vr, d, d, b, n, i, 1, i, 0);
    forall l | 0 <= l < n
      ensures l > 0 ==> w[Lane(d, Cell(n, i, l))] == num[1]
      ensures w[Lane(b, Cell(n, l, 1))] == num[1]
    {
      assert Cell(n, l, 1) > 0 && (l > 0 ==> Cell(n, i, l) > 0) by {
        CellsDistinct(n, 0, 0, l, 1);
        CellsDistinct(n, 0, 0, i, l);
      }
      FirstRowPending(fpu, vr, d, d, b, n, i, 1, Lane(b, Cell(n, l, 1)));
      if l > 0 {
        FirstRowPending(fpu, vr, d, d, b, n, i, 1, Lane(d, Cell(n, i, l)));
      }
    }
    DotCounts(fpu, num, w, d, b, n, i, 1, n, n);
    CellStays(fpu, vr, d, d, b, n, n, 0, i, 1);
  }

  /** After the first row, vb being vd: ones but for the row itself, whose first cell is n. */
  lemma FirstRowDone(fpu: Fpu, num: seq<word>, vr: VecFile, d: nat, a: nat, n: nat, i: nat)
    requires d < NUM_VR && a < NUM_VR && 2 <= n <= TILE_SIZE && i == 0 && Counts(fpu, num)
    requires forall k :: 0 <= k < 128 ==> vr[k] == num[1]
    ensures var w := Tiled(fpu, vr, d, a, d, n, i, n);
      && Tiled(fpu, vr, d, a, d, n, i + 1, 0) == w && w[Lane(d, Cell(n, i, 0))] == num[n]
      && forall k :: 0 <= k < 128 && !(Lane(d, 0) <= k < Lane(d, n)) ==> w[k] == num[1]
  {
    hide Dot;
    FirstCell(fpu, num, vr, a, d, n, i, 0);
    assert Tiled(fpu, vr, d, a, d, n, i, 0) == vr;
    CellStays(fpu, vr, d, a, d, n, i, n, i, 0);
    forall k | 0 <= k < 128 && !(Lane(d, 0) <= k < Lane(d, n))
      ensures Tiled(fpu, vr, d, a, d, n, i, n)[k] == num[1]
    {
      FirstRowPending(fpu, vr, d, a, d, n, i, n, k);
    }
  }

  lemma SecondRowDot(fpu: Fpu, num: seq<word>, w: VecFile, d: nat, a: nat, n: nat, i: nat)
    requires d < NUM_VR && a < NUM_VR && d != a && 2 <= n <= TILE_SIZE && i == 0 && Counts(fpu, num)
    requires w[Lane(d, Cell(n, i, 0))] == num[n]
    requires forall k :: 0 <= k < 128 && !(Lane(d, 0) <= k < Lane(d, n)) ==> w[k] == num[1]
    ensures Dot(fpu, w, a, d, n, i + 1, 0, n) == num[2 * n - 1]
  {
    hide Dot, Cell;
    forall l | 0 <= l < n
      ensures w[Lane(a, Cell(n, i + 1, l))] == num[1]
      ensures l > 0 ==> w[Lane(d, Cell(n, l, 0))] == num[1]
    {
      if l > 0 {
        BelowFirstRow(n, l);
      }
    }
    DotCounts(fpu, num, w, a, d, n, i + 1, 0, n, n);
  }

  /** Likewise, vb being vd, the cell below the first one. */
  lemma ColumnReadsBack(fpu: Fpu, num: seq<word>, vr: VecFile, d: nat, a: nat, n: nat, i: nat)
    requires d < NUM_VR && a < NUM_VR && d != a && 2 <= n <= TILE_SIZE && i == 0 && Counts(fpu, num)
    requires forall k :: 0 <= k < 128 ==> vr[k] == num[1]
    ensures MatmulTiled(fpu, vr, d, a, d, n)[Lane(d, Cell(n, i + 1, 0))] == num[2 * n - 1]
  {
    FirstRowDone(fpu, num, vr, d, a, n, i);
    CellStays(fpu, vr, d, a, d, n, n, 0, i + 1, 0);
    assert MatmulTiled(fpu, vr, d, a, d, n) == Tiled(fpu, vr, d, a, d, n, n, 0);
    hide Dot, Tiled, MatmulTiled, Cell;
    SecondRowDot(fpu, num, Tiled(fpu, vr, d, a, d, n, i, n), d, a, n, i);
  }

  lemma BelowFirstRow(n: nat, l: nat)
    requires 0 < l < n <= TILE_SIZE
    ensures Cell(n, l, 0) >= n
  {
    assert n == 2 || n == 3 || n == 4;
  }

  /** A tile multiply is the matrix product for all register contents exactly when the destination is neither
      source or there is at most one cell: otherwise finished cells are read back. So for every unit that can
      count to seven, which FP32 can. */
  lemma TileIsProductIff(fpu: Fpu, num: seq<word>, d: nat, a: nat, b: nat, n: nat)
    requires d < NUM_VR && a < NUM_VR && b < NUM_VR && n <= TILE_SIZE && Counts(fpu, num)
    ensures (forall vr: VecFile :: IsProduct(fpu, vr, MatmulTiled(fpu, vr, d, a, b, n), d, a, b, n))
        <==> n <= 1 || (d != a && d != b)
  {
    hide Dot, IsProduct, MatmulTiled;
    if n <= 1 || (d != a && d != b) {
      forall vr: VecFile
        ensures IsProduct(fpu, vr, MatmulTiled(fpu, vr, d, a, b, n), d, a, b, n)
      {
        if n <= 1 {
          UnitTileIsProduct(fpu, vr, d, a, b, n);
        } else {
          MatmulIsProduct(fpu, vr, d, a, b, n);
        }
      }
    } else {
      var ones: VecFile := seq(128, _ => num[1]);
      AliasedOnes(fpu, num, ones, d, a, b, n);
    }
  }

  lemma AliasedOnes(fpu: Fpu, num: seq<word>, vr: VecFile, d: nat, a: nat, b: nat, n: nat)
    requires d < NUM_VR && a < NUM_VR && b < NUM_VR && 2 <= n <= TILE_SIZE && (d == a || d == b) && Counts(fpu, num)
    requires forall k :: 0 <= k < 128 ==> vr[k] == num[1]
    ensures !IsProduct(fpu, vr, MatmulTiled(fpu, vr, d, a, b, n), d, a, b, n)
  {
    hide Dot, MatmulTiled;
    var i: nat, j: nat := if d == a then 0 else 1, if d == a then 1 else 0;
    if d == a {
      RowReadsBack(fpu, num, vr, d, b, n, i);
    } else {
      ColumnReadsBack(fpu, num, vr, d, a, n, j);
    }
    FirstCell(fpu, num, vr, a, b, n, i, j);
    assert num[n] != num[2 * n - 1];
    assert MatmulTiled(fpu, vr, d, a, b, n)[Lane(d, Cell(n, i, j))] != Dot(fpu, vr, a, b, n, i, j, n);
  }

  function AddWords(x: word, y: word): word {
    Wrap(x + y)
  }

  function MulWords(x: word, y: word): word {
    Wrap(x * y)
  }

  lemma WordsCount(num: seq<word>)
    requires |num| == 8 && forall i :: 0 <= i < 8 ==> num[i] == i
    ensures Counts(Fpu(AddWords, MulWords), num)
  {
    var fpu := Fpu(AddWords, MulWords);
    forall i, j | 0 <= i < 8 && 0 <= j < 8 - i
      ensures fpu.add(num[i], num[j]) == num[i + j]
    {
      assert fpu.add(num[i], num[j]) == AddWords(num[i], num[j]);
    }
    forall i | 0 <= i < 8
      ensures fpu.mul(num[i], num[1]) == num[i] && fpu.mul(num[1], num[i]) == num[i]
    {
      assert fpu.mul(num[i], num[1]) == MulWords(num[i], num[1]) && fpu.mul(num[1], num[i]) == MulWords(num[1], num[i]);
    }
  }

  /** Hence for all units and contents together, wrapping integer arithmetic being a unit that counts. */
  lemma TileIsAlwaysProductIff(d: nat, a: nat, b: nat, n: nat)
    requires d < NUM_VR && a < NUM_VR && b < NUM_VR && n <= TILE_SIZE
    ensures (forall fpu: Fpu, vr: VecFile :: IsProduct(fpu, vr, MatmulTiled(fpu, vr, d, a, b, n), d, a, b, n))
        <==> n <= 1 || (d != a && d != b)
  {
    hide IsProduct, MatmulTiled;
    if n <= 1 || (d != a && d != b) {
      forall fpu: Fpu, vr: VecFile
        ensures IsProduct(fpu, vr, MatmulTiled(fpu, vr, d, a, b, n), d, a, b, n)
      {
        if n <= 1 {
          UnitTileIsProduct(fpu, vr, d, a, b, n);
        } else {
          MatmulIsProduct(fpu, vr, d, a, b, n);
        }
      }
    } else {
      var num: seq<word> := [0, 1, 2, 3, 4, 5, 6, 7];
      WordsCount(num);
      hide Counts;
      TileIsProductIff(Fpu(AddWords, MulWords), num, d, a, b, n);
    }
  }
}
