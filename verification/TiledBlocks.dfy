/**
 `cell2mat` as a caller sees it: where the elements of every block come to lie, by coordinates.
 */
module TiledBlocks {
  import opened MixedRadix
  import opened Results
  import opened Shapes
  import opened Tensors
  import opened Coordinates
  import opened Partitions
  import opened Blocks
  import opened Tiling
  import opened Cutting

  /**
   The block at `c` is as long as its intervals, and its element at `l` is in the whole at `l` moved by the lengths
   of the intervals before.
   */
  ghost predicate LiesInWhole<T>(whole: Tensor<T>, ps: seq<seq<nat>>, c: seq<nat>, block: Tensor<T>)
    requires whole.Valid() && block.Valid() && |c| == |ps| && forall a | 0 <= a < |c| :: c[a] < |ps[a]|
  {
    && (forall a: nat :: Extent(block.dims, a) == if a < |ps| then ps[a][c[a]] else 1)
    && forall l: seq<nat>, x: seq<nat> | Inside(l, block.dims) && IsMoved(ps, c, l, x) ::
         Within(x, whole.dims) && Element(whole, x) == At(block, l)
  }

  ghost predicate LiesAt<T>(whole: Tensor<T>, ps: seq<seq<nat>>, cell: Cell<T>, c: seq<nat>)
    requires cell.Valid() && whole.Valid() && |c| == |cell.dims|
  {
    && Encode(c, cell.dims) < |cell.blocks|
    && (forall a | 0 <= a < |ps| :: Coordinate(c, a) < |ps[a]|)
    && LiesInWhole(whole, ps, Fit(c, |ps|), cell.blocks[Encode(c, cell.dims)])
  }

  /** Every block of the cell is in the whole, which is as long along each axis as the intervals together. */
  ghost predicate HoldsAllBlocks<T>(whole: Tensor<T>, ps: seq<seq<nat>>, cell: Cell<T>)
    requires cell.Valid()
  {
    && whole.Valid() && |cell.dims| <= |ps|
    && (forall a: nat :: Extent(whole.dims, a) == if a < |ps| then Sum(ps[a]) else 1)
    && (forall a | 0 <= a < |ps| :: |ps[a]| == Extent(cell.dims, a))
    && forall c: seq<nat> | Inside(c, cell.dims) :: LiesAt(whole, ps, cell, c)
  }

  lemma PlaceIsMoved(ps: seq<seq<nat>>, c: seq<nat>, l: seq<nat>, x: seq<nat>, n: nat)
    requires Inside(c, Counts(ps)) && |l| <= |ps| && (forall a | 0 <= a < |c| :: c[a] < |ps[a]|) && IsMoved(ps, c, l, x)
    ensures Fit(Place(ps, c, Fit(l, |ps|)), n) == Fit(x, n)
  {
    var y := Place(ps, c, Fit(l, |ps|));
    forall a | 0 <= a < n ensures Fit(y, n)[a] == Fit(x, n)[a] {
      assert Coordinate(x, a) == if a < |c| then Sum(ps[a][..c[a]]) + Coordinate(l, a) else 0;
    }
  }

  lemma MovedInWhole(ps: seq<seq<nat>>, c: seq<nat>, d: seq<nat>, whole: seq<nat>, l: seq<nat>, x: seq<nat>)
    requires |c| == |ps| && (forall a | 0 <= a < |c| :: c[a] < |ps[a]|) && Inside(l, d) && IsMoved(ps, c, l, x)
    requires forall a: nat :: Extent(d, a) == if a < |ps| then ps[a][c[a]] else 1
    requires forall a: nat :: Extent(whole, a) == if a < |ps| then Sum(ps[a]) else 1
    ensures Within(x, whole)
  {
    forall a: nat ensures Coordinate(x, a) < Extent(whole, a) {
      assert Coordinate(x, a) == if a < |c| then Sum(ps[a][..c[a]]) + Coordinate(l, a) else 0;
      if a < |c| {
        assert Coordinate(l, a) < Extent(d, a);
        StartNext(ps[a], c[a]);
        StartMonotone(ps[a], c[a] + 1, |ps[a]|);
        StartEnd(ps[a]);
      }
    }
  }

  lemma FittedCell(c: seq<nat>, d: seq<nat>, n: nat)
    requires Inside(c, d) && |d| <= n
    ensures Encode(c, d) < Product(d) && Inside(Fit(c, n), Extended(d, n))
    ensures Decode(Encode(c, d), Extended(d, n)) == Fit(c, n)
  {
    InsideIsWithin(c, d);
    FitOffset(c, d, n);
    assert Fit(c, |d|) == c;
    DecodeEncode(Fit(c, n), Extended(d, n));
  }

  lemma BlockInWhole<T>(cell: Cell<T>, cells: seq<seq<nat>>, ps: seq<seq<nat>>, whole: Tensor<T>, c: seq<nat>,
                        l: seq<nat>, x: seq<nat>, k: nat, b: nat)
    requires cell.Valid() && ListsCell(cell, cells) && FitsCell(cell, cells, ps) && IsTiling(cell.blocks, ps, whole)
    requires |ps| >= 2 && Inside(c, Counts(ps)) && (forall a | 0 <= a < |c| :: c[a] < |ps[a]|) && IsMoved(ps, c, l, x)
    requires k < |cell.blocks| && Decode(k, Counts(ps)) == c && |cell.blocks[k].dims| <= |ps| == |c|
    requires Extended(cell.blocks[k].dims, |ps|) == BlockDims(ps, c)
    requires Inside(l, cell.blocks[k].dims) && b == Encode(l, cell.blocks[k].dims) && k < Product(Counts(ps))
    ensures OffsetFrom(x, whole.dims) < |whole.data| && b < |cell.blocks[k].data|
    ensures whole.data[OffsetFrom(x, whole.dims)] == cell.blocks[k].data[b]
  {
    FittedCell(l, cell.blocks[k].dims, |ps|);
    ExtendedSize(cell.blocks[k].dims, |ps|);
    IndexOfDestination(ps, k, b);
    PlaceIsMoved(ps, c, l, x, |whole.dims|);
  }

  lemma GridOfCell<T>(cell: Cell<T>, cells: seq<seq<nat>>, ps: seq<seq<nat>>, n: nat)
    requires cell.Valid() && n == TileRank(|cell.dims|, cell.blocks) && ListsCell(cell, cells) && FitsCell(cell, cells, ps)
    ensures |ps| == n >= |cell.dims| && Counts(ps) == Extended(cell.dims, n)
    ensures forall k: nat | k < |cells| ::
              && k < |cell.blocks| && |cell.blocks[k].dims| <= n && Decode(k, Counts(ps)) == cells[k] && Inside(cells[k], Counts(ps))
              && Extended(cell.blocks[k].dims, n) == BlockDims(ps, cells[k])
  {
    forall k: nat | k < |cells|
      ensures k < |cell.blocks| && |cell.blocks[k].dims| <= n && Decode(k, Counts(ps)) == cells[k] && Inside(cells[k], Counts(ps))
      ensures Extended(cell.blocks[k].dims, n) == BlockDims(ps, cells[k])
    {
      assert ExtendedDims(cell.blocks, n)[k] == BlockDims(ps, cells[k]);
    }
  }

  lemma TiledAt<T>(cell: Cell<T>, cells: seq<seq<nat>>, ps: seq<seq<nat>>, whole: Tensor<T>, n: nat, c: seq<nat>)
    requires cell.Valid() && n == TileRank(|cell.dims|, cell.blocks) && ListsCell(cell, cells) && FitsCell(cell, cells, ps)
    requires IsTiling(cell.blocks, ps, whole) && |ps| == n && Inside(c, cell.dims)
    requires forall a: nat :: Extent(whole.dims, a) == if a < |ps| then Sum(ps[a]) else 1
    ensures LiesAt(whole, ps, cell, c)
  {
    GridOfCell(cell, cells, ps, n);
    FittedCell(c, cell.dims, n);
    ExtendedSize(cell.dims, n);
    var k, e := Encode(c, cell.dims), Fit(c, n);
    assert cells[k] == e;
    var block := cell.blocks[k];
    forall a | 0 <= a < |ps| ensures e[a] < |ps[a]| {
      assert e[a] < Counts(ps)[a];
    }
    LiesInWholeAt(cell, cells, ps, whole, e, k, block);
    forall a | 0 <= a < |ps| ensures Coordinate(c, a) < |ps[a]| {
      assert e[a] == Coordinate(c, a);
    }
  }

  lemma LiesInWholeAt<T>(cell: Cell<T>, cells: seq<seq<nat>>, ps: seq<seq<nat>>, whole: Tensor<T>, e: seq<nat>, k: nat, block: Tensor<T>)
    requires cell.Valid() && ListsCell(cell, cells) && FitsCell(cell, cells, ps) && IsTiling(cell.blocks, ps, whole)
    requires |ps| >= 2 && Inside(e, Counts(ps)) && k < |cell.blocks| && block == cell.blocks[k] && k < Product(Counts(ps))
    requires Decode(k, Counts(ps)) == e && |block.dims| <= |ps| && Extended(block.dims, |ps|) == BlockDims(ps, e)
    requires forall a: nat :: Extent(whole.dims, a) == if a < |ps| then Sum(ps[a]) else 1
    requires forall a | 0 <= a < |ps| :: e[a] < |ps[a]|
    ensures LiesInWhole(whole, ps, e, block)
  {
    forall a: nat ensures Extent(block.dims, a) == if a < |ps| then ps[a][e[a]] else 1 {
      assert Extent(BlockDims(ps, e), a) == Extent(Extended(block.dims, |ps|), a);
    }
    forall l: seq<nat>, x: seq<nat> | Inside(l, block.dims) && IsMoved(ps, e, l, x)
      ensures Within(x, whole.dims) && Element(whole, x) == At(block, l)
    {
      MovedInWhole(ps, e, block.dims, whole.dims, l, x);
      EncodeBound(l, block.dims);
      BlockInWhole(cell, cells, ps, whole, e, l, x, k, Encode(l, block.dims));
    }
  }

  lemma WholeExtents(ps: seq<seq<nat>>, d: seq<nat>)
    requires d == Canonical(Totals(ps))
    ensures forall a: nat :: Extent(d, a) == if a < |ps| then Sum(ps[a]) else 1
  {
    CanonicalIsCanonical(Totals(ps));
    forall a: nat ensures Extent(d, a) == if a < |ps| then Sum(ps[a]) else 1 {
      assert Extent(d, a) == Extent(Totals(ps), a);
    }
  }

  lemma GridExtents(ps: seq<seq<nat>>, d: seq<nat>, n: nat)
    requires |ps| == n >= |d| && Counts(ps) == Extended(d, n)
    ensures forall a | 0 <= a < |ps| :: |ps[a]| == Extent(d, a)
  {
    forall a | 0 <= a < |ps| ensures |ps[a]| == Extent(d, a) {
      assert Counts(ps)[a] == Extended(d, n)[a];
    }
  }

  lemma AllTiled<T>(cell: Cell<T>, cells: seq<seq<nat>>, ps: seq<seq<nat>>, whole: Tensor<T>, n: nat)
    requires cell.Valid() && n == TileRank(|cell.dims|, cell.blocks) && ListsCell(cell, cells) && FitsCell(cell, cells, ps)
    requires IsTiling(cell.blocks, ps, whole) && |ps| == n
    requires forall a: nat :: Extent(whole.dims, a) == if a < |ps| then Sum(ps[a]) else 1
    ensures forall c: seq<nat> | Inside(c, cell.dims) :: LiesAt(whole, ps, cell, c)
  {
    forall c: seq<nat> | Inside(c, cell.dims) ensures LiesAt(whole, ps, cell, c) {
      TiledAt(cell, cells, ps, whole, n, c);
    }
  }

  /** What a tiling is, by coordinates. */
  lemma TilingHoldsAll<T>(cell: Cell<T>, cells: seq<seq<nat>>, ps: seq<seq<nat>>, whole: Tensor<T>)
    requires cell.Valid() && ListsCell(cell, cells) && FitsCell(cell, cells, ps) && IsTiling(cell.blocks, ps, whole)
    ensures HoldsAllBlocks(whole, ps, cell)
  {
    var n := TileRank(|cell.dims|, cell.blocks);
    GridOfCell(cell, cells, ps, n);
    WholeExtents(ps, whole.dims);
    GridExtents(ps, cell.dims, n);
    AllTiled(cell, cells, ps, whole, n);
  }

  /**
   `cell2mat`: the 0-by-0 array when there are no blocks; otherwise every block is found in the result where the
   blocks before it end.
   */
  method TileCell<T>(cell: Cell<T>, filler: T) returns (r: Result<Tensor<T>, BlockError>, ghost ps: seq<seq<nat>>)
    requires cell.Valid()
    ensures cell.blocks == [] ==> r == Ok(Nothing())
    ensures cell.blocks != [] && r.Ok? ==> HoldsAllBlocks(r.value, ps, cell)
    ensures r.Err? ==> r.error == IncompatibleBlocks
  {
    ghost var cells;
    r, cells, ps := Cell2Mat(cell, filler);
    if cell.blocks != [] && r.Ok? {
      TilingHoldsAll(cell, cells, ps, r.value);
    }
  }
}
