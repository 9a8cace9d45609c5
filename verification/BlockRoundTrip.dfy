/**
 When `cell2mat` undoes `mat2cell`.  Along axes that are all cut into some blocks: exactly when the array
 has rank two or its last axis is cut into at least two blocks, since otherwise the cell shape drops the
 last axis and block lookup no longer reaches it.  With an empty list of blocks along some axis the cell
 is empty, and only the 0-by-0 array comes back.
 */
module BlockRoundTrip {
  import opened MixedRadix
  import opened Results
  import opened Shapes
  import opened Tensors
  import opened Partitions
  import opened Blocks
  import opened Tiling

  /** The condition, as a caller can check it on the partition vectors. */
  predicate KeepsLastAxis(ps: seq<seq<nat>>)
    requires |ps| >= 2
  {
    |ps| == 2 || |ps[|ps| - 1]| != 1
  }

  lemma CellsKeepRank(ps: seq<seq<nat>>)
    requires |ps| >= 2 && KeepsLastAxis(ps)
    ensures Canonical(Counts(ps)) == Counts(ps)
  {
    CanonicalIsCanonical(Counts(ps));
  }

  /** Where the block at `c` reads its element `o` when no axis was dropped. */
  lemma GatherIsPlace(dims: seq<nat>, ps: seq<seq<nat>>, c: seq<nat>, o: nat)
    requires |ps| >= 2 && Totals(ps) == dims && Inside(c, Counts(ps)) && o < Product(BlockDims(ps, c))
    ensures NamesBlock(ps, c) && CutDims(ps, c) == BlockDims(ps, c)
    ensures var x := Place(ps, c, Decode(o, BlockDims(ps, c)));
            && Inside(x, dims) && Encode(x, dims) < Product(dims)
            && GatherOffset(dims, Canonical(BlockDims(ps, c)), CutStarts(ps, c), o) == Encode(x, dims)
  {
    assert ps[..|c|] == ps;
    var bd := BlockDims(ps, c);
    var extra := CanonicalSplit(bd);
    ShiftedIsPlace(ps, c, Canonical(bd), extra, o);
    EncodeDecode(o, bd);
    var x := Place(ps, c, Decode(o, bd));
    PartsOfPlace(ps, c, Decode(o, bd));
    EncodeBound(x, dims);
    assert Fit(x, |dims|) == x;
  }

  /** A block cut at `c` has the grid's extents and holds the source's elements. */
  lemma BlockHolds<T>(src: Tensor<T>, ps: seq<seq<nat>>, c: seq<nat>, block: Tensor<T>)
    requires src.Valid() && |ps| >= 2 && Totals(ps) == src.dims && Inside(c, Counts(ps))
    requires IsBlockOf(src, ps, c, block)
    ensures |block.dims| <= |ps| && Extended(block.dims, |ps|) == BlockDims(ps, c)
    ensures |block.data| == Product(BlockDims(ps, c))
    ensures forall o: nat | o < Product(BlockDims(ps, c)) ::
              var x := Place(ps, c, Decode(o, BlockDims(ps, c)));
              Inside(x, src.dims) && Encode(x, src.dims) < |src.data| && block.data[o] == src.data[Encode(x, src.dims)]
  {
    assert ps[..|c|] == ps;
    var bd := BlockDims(ps, c);
    var extra := CanonicalSplit(bd);
    assert block.dims == Canonical(bd);
    assert Extended(block.dims, |ps|) == bd;
    forall o: nat | o < Product(bd)
      ensures var x := Place(ps, c, Decode(o, bd));
              Inside(x, src.dims) && Encode(x, src.dims) < |src.data| && block.data[o] == src.data[Encode(x, src.dims)]
    {
      GatherIsPlace(src.dims, ps, c, o);
    }
  }

  /** Two grids that the same blocks fit are the same grid. */
  lemma GridUnique(cd: seq<nat>, cells: seq<seq<nat>>, bd: seq<seq<nat>>, ps: seq<seq<nat>>, qs: seq<seq<nat>>)
    requires Lists(cells, cd) && Product(cd) > 0
    requires FitsGrid(cd, cells, bd, ps) && FitsGrid(cd, cells, bd, qs)
    ensures ps == qs
  {
    forall d | 0 <= d < |cd| ensures ps[d] == qs[d] {
      assert Counts(ps)[d] == cd[d] == Counts(qs)[d];
      forall j | 0 <= j < cd[d] ensures ps[d][j] == qs[d][j] {
        var k := SomeCell(cd, d, j);
        assert cells[k][d] == j;
        assert BlockDims(ps, cells[k])[d] == BlockDims(qs, cells[k])[d];
      }
    }
  }

  lemma SameList(cells: seq<seq<nat>>, others: seq<seq<nat>>, cd: seq<nat>)
    requires Lists(cells, cd) && Lists(others, cd)
    ensures cells == others
  {
    forall k | 0 <= k < |cells| ensures cells[k] == others[k] {
      var c := Decode(k, cd);
    }
  }

  /** The blocks of a cut that kept its rank fit the grid it was cut along. */
  lemma CutFitsGrid<T>(src: Tensor<T>, ps: seq<seq<nat>>, cells: seq<seq<nat>>, cell: Cell<T>, listed: seq<seq<nat>>)
    requires src.Valid() && |ps| >= 2 && Totals(ps) == src.dims && KeepsLastAxis(ps)
    requires IsCutInto(src, ps, cells, cell) && ListsCell(cell, listed)
    ensures listed == cells && cell.dims == Counts(ps) && FitsCell(cell, cells, ps)
    ensures TileRank(|cell.dims|, cell.blocks) == |ps|
  {
    CellsKeepRank(ps);
    var n := TileRank(|cell.dims|, cell.blocks);
    forall k | 0 <= k < |cells| ensures Inside(cells[k], Counts(ps)) {
      EncodeDecode(k, Counts(ps));
    }
    forall k | 0 <= k < |cells|
      ensures |cell.blocks[k].dims| <= |ps| && Extended(cell.blocks[k].dims, |ps|) == BlockDims(ps, cells[k])
    {
      BlockHolds(src, ps, cells[k], cell.blocks[k]);
    }
    assert n == |ps| && Extended(cell.dims, n) == cell.dims;
    SameList(cells, listed, cell.dims);
  }

  /** Tiling along the grid of the cut restores the source, shape and elements. */
  lemma TilingRestores<T>(src: Tensor<T>, ps: seq<seq<nat>>, cells: seq<seq<nat>>, cell: Cell<T>, whole: Tensor<T>)
    requires src.Valid() && |ps| >= 2 && Totals(ps) == src.dims && KeepsLastAxis(ps)
    requires IsCutInto(src, ps, cells, cell) && IsTiling(cell.blocks, ps, whole)
    ensures whole == src
  {
    CellsKeepRank(ps);
    CanonicalIsCanonical(src.dims);
    forall x: nat | x < |src.data| ensures whole.data[x] == src.data[x] {
      RestoredAt(src, ps, cells, cell, x);
    }
  }

  lemma RestoredAt<T>(src: Tensor<T>, ps: seq<seq<nat>>, cells: seq<seq<nat>>, cell: Cell<T>, x: nat)
    requires src.Valid() && |ps| >= 2 && Totals(ps) == src.dims && Canonical(Counts(ps)) == Counts(ps)
    requires IsCutInto(src, ps, cells, cell) && x < |src.data|
    ensures var k, b := BlockIndex(ps, x), ElementIndex(ps, x);
            k < |cell.blocks| && b < |cell.blocks[k].data| && cell.blocks[k].data[b] == src.data[x]
  {
    var k, b := BlockIndex(ps, x), ElementIndex(ps, x);
    var c := Decode(k, Counts(ps));
    assert c == cells[k];
    ElementInBlock(ps, x);
    BlockHolds(src, ps, c, cell.blocks[k]);
    DestinationOfIndex(ps, x);
    DestinationIsPlace(ps, c, b);
  }

  lemma BlockRank<T>(src: Tensor<T>, ps: seq<seq<nat>>, c: seq<nat>, block: Tensor<T>)
    requires IsBlockOf(src, ps, c, block) && |c| >= 2
    ensures |block.dims| <= |c|
  {
    var more := CanonicalSplit(CutDims(ps, c));
  }

  /** When the last axis is dropped from the cell, no tiling of its blocks has the source's rank. */
  lemma LostAxis<T>(src: Tensor<T>, ps: seq<seq<nat>>, cells: seq<seq<nat>>, cell: Cell<T>,
                    listed: seq<seq<nat>>, qs: seq<seq<nat>>, whole: Tensor<T>)
    requires src.Valid() && |ps| >= 2 && Totals(ps) == src.dims && !KeepsLastAxis(ps)
    requires cell.Valid() && IsCutInto(src, ps, cells, cell)
    requires FitsCell(cell, listed, qs) && IsTiling(cell.blocks, qs, whole)
    ensures |whole.dims| < |src.dims|
  {
    CutRank(src, ps, cells, cell);
    assert |qs| == |cell.dims| >= 2;
    var rest := CanonicalSplit(Totals(qs));
  }

  lemma CutRank<T>(src: Tensor<T>, ps: seq<seq<nat>>, cells: seq<seq<nat>>, cell: Cell<T>)
    requires |ps| >= 2 && !KeepsLastAxis(ps) && cell.Valid() && IsCutInto(src, ps, cells, cell)
    ensures 2 <= |cell.dims| < |ps| && TileRank(|cell.dims|, cell.blocks) == |cell.dims|
  {
    var cd := cell.dims;
    var extra := CanonicalSplit(Counts(ps));
    assert Counts(ps)[|ps| - 1] == 1;
    assert |cd| < |ps|;
    forall k | 0 <= k < |cells| ensures |cell.blocks[k].dims| <= |cd| {
      assert cells[k] == Decode(k, cd);
      BlockRank(src, ps, cells[k], cell.blocks[k]);
    }
  }

  /** With all axes kept, the cut always succeeds. */
  lemma KeptAxesCut(dims: seq<nat>, ps: seq<seq<nat>>)
    requires |ps| == |dims| >= 2 && KeepsLastAxis(ps)
    ensures CanCut(dims, ps)
  {
    CellsKeepRank(ps);
    assert dims[..|ps|] == dims;
  }

  lemma CellSize(ps: seq<seq<nat>>)
    ensures Product(Canonical(Counts(ps))) > 0 <==> NoneEmpty(ps)
  {
    CanonicalIsCanonical(Counts(ps));
    ProductPositive(Counts(ps));
    assert forall k | 0 <= k < |ps| :: Counts(ps)[k] == 0 <==> ps[k] == [];
  }

  /** A cell without blocks, however it is cut, becomes the 0-by-0 array. */
  lemma NoBlocks<T>(src: Tensor<T>)
    requires src.Valid()
    ensures src == Nothing() <==> src.dims == [0, 0]
  {
    Encode2(0, 0, 0, 0);
  }

  /**
   Cutting an array and tiling the blocks gives the array back if and only if it has rank two or its last
   axis is cut into at least two blocks; zero-size blocks are allowed.  When an axis without positions is
   cut into no blocks at all, only the 0-by-0 array comes back.
   */
  method CutAndTile<T>(src: Tensor<T>, ps: seq<seq<nat>>, filler: T) returns (r: Result<Tensor<T>, BlockError>)
    requires src.Valid() && |ps| == |src.dims| && Totals(ps) == src.dims
    ensures r == Ok(src) <==> if NoneEmpty(ps) then KeepsLastAxis(ps) else src.dims == [0, 0]
  {
    CellSize(ps);
    var cut, cells := CutBlocks(src, ps);
    if KeepsLastAxis(ps) {
      KeptAxesCut(src.dims, ps);
    }
    if cut.Err? {
      return Err(cut.error);
    }
    var whole, listed, qs := Cell2Mat(cut.value, filler);
    if !NoneEmpty(ps) {
      NoBlocks(src);
    } else if KeepsLastAxis(ps) {
      CutFitsGrid(src, ps, cells, cut.value, listed);
      assert whole.Ok?;
      GridUnique(Counts(ps), cells, ExtendedDims(cut.value.blocks, |ps|), ps, qs);
      TilingRestores(src, ps, cells, cut.value, whole.value);
    } else if whole.Ok? {
      LostAxis(src, ps, cells, cut.value, listed, qs, whole.value);
    }
    r := whole;
  }

  /** An array with three columns and no rows, its rows cut into no blocks. */
  method RowsIntoNone() returns (r: Result<Tensor<int>, BlockError>)
    ensures r != Ok(Tensor([0, 3], []))
  {
    var src: Tensor<int>, ps := Tensor([0, 3], []), [[], [3]];
    Encode2(0, 0, 0, 3);
    assert Sum([3]) == 3 by {
      assert [3][..0] == [];
    }
    assert Totals(ps) == src.dims && ps[0] == [];
    r := CutAndTile(src, ps, 0);
  }

  /** Two pages cut into one block each way are not put back together. */
  method UncutPages() returns (r: Result<Tensor<int>, BlockError>)
    ensures r != Ok(Tensor([1, 1, 2], [7, 8]))
  {
    var src, ps := Tensor([1, 1, 2], [7, 8]), [[1], [1], [2]];
    Encode3(0, 0, 0, 1, 1, 2);
    assert Sum([1]) == 1 && Sum([2]) == 2 by {
      assert [1][..0] == [] && [2][..0] == [];
    }
    assert Totals(ps) == src.dims;
    r := CutAndTile(src, ps, 0);
  }
}
