/**
 `mat2cell` as a caller sees it: what the cell and its blocks hold, by coordinates, with one partition vector
 per axis and with one for the first axis alone.
 */
module Cutting {
  import opened MixedRadix
  import opened Results
  import opened Shapes
  import opened Tensors
  import opened Coordinates
  import opened Partitions
  import opened Blocks

  // ----- one vector per axis

  /**
   Along the axes that the cell kept, the block at `c` has the lengths of its intervals, and its element at `l`
   is the source's at `l` moved by the lengths of the intervals before; along the others it is one position wide.
   */
  ghost predicate HoldsBlock<T>(src: Tensor<T>, ps: seq<seq<nat>>, c: seq<nat>, block: Tensor<T>)
    requires src.Valid() && |c| <= |ps| && forall a | 0 <= a < |c| :: c[a] < |ps[a]|
  {
    && block.Valid()
    && (forall a: nat :: Extent(block.dims, a) == if a < |c| then ps[a][c[a]] else 1)
    && forall l: seq<nat>, x: seq<nat> | Inside(l, block.dims) && IsMoved(ps, c, l, x) ::
         Within(x, src.dims) && Element(src, x) == At(block, l)
  }

  /** `x` is `l` moved along the first axes by the lengths of the intervals before those that `c` names. */
  ghost predicate IsMoved(ps: seq<seq<nat>>, c: seq<nat>, l: seq<nat>, x: seq<nat>)
    requires |c| <= |ps| && forall a | 0 <= a < |c| :: c[a] < |ps[a]|
  {
    forall a: nat :: Coordinate(x, a) == if a < |c| then Sum(ps[a][..c[a]]) + Coordinate(l, a) else 0
  }

  /** The cell has one block for every choice of intervals. */
  ghost predicate HoldsBlocks<T>(src: Tensor<T>, ps: seq<seq<nat>>, cell: Cell<T>)
    requires src.Valid()
  {
    && cell.Valid() && |cell.dims| <= |ps|
    && (forall a: nat :: Extent(cell.dims, a) == if a < |ps| then |ps[a]| else 1)
    && forall c: seq<nat> | Inside(c, cell.dims) :: HoldsAt(src, ps, cell, c)
  }

  ghost predicate HoldsAt<T>(src: Tensor<T>, ps: seq<seq<nat>>, cell: Cell<T>, c: seq<nat>)
    requires src.Valid() && |c| == |cell.dims| <= |ps|
  {
    && (forall a | 0 <= a < |c| :: c[a] < |ps[a]|)
    && Encode(c, cell.dims) < |cell.blocks| && HoldsBlock(src, ps, c, cell.blocks[Encode(c, cell.dims)])
  }

  /** Positions in a block at coordinates that are not kept are zero. */
  lemma BlockExtents(ps: seq<seq<nat>>, c: seq<nat>, d: seq<nat>)
    requires NamesBlock(ps, c) && d == Canonical(CutDims(ps, c))
    ensures forall a: nat :: Extent(d, a) == if a < |c| then ps[a][c[a]] else 1
  {
    CanonicalIsCanonical(CutDims(ps, c));
  }

  lemma MovedIsShifted(ps: seq<seq<nat>>, c: seq<nat>, l: seq<nat>, x: seq<nat>, n: nat)
    requires NamesBlock(ps, c) && |c| <= n && (forall a | 0 <= a < |c| :: c[a] < |ps[a]|) && IsMoved(ps, c, l, x)
    ensures Fit(Shifted(CutStarts(ps, c), l), n) == Fit(x, n)
  {
    var y := Shifted(CutStarts(ps, c), l);
    forall a | 0 <= a < n ensures Fit(y, n)[a] == Fit(x, n)[a] {
      assert Coordinate(x, a) == if a < |c| then Sum(ps[a][..c[a]]) + Coordinate(l, a) else 0;
    }
  }

  lemma MovedWithin(src: seq<nat>, ps: seq<seq<nat>>, c: seq<nat>, d: seq<nat>, l: seq<nat>, x: seq<nat>)
    requires |ps| == |src| && Totals(ps) == src && NamesBlock(ps, c) && d == Canonical(CutDims(ps, c)) && Inside(l, d)
    requires (forall a | 0 <= a < |c| :: c[a] < |ps[a]|) && IsMoved(ps, c, l, x)
    requires forall a | |c| <= a < |src| :: src[a] > 0
    ensures Within(x, src)
  {
    BlockExtents(ps, c, d);
    forall a: nat ensures Coordinate(x, a) < Extent(src, a) {
      assert Coordinate(x, a) == if a < |c| then Sum(ps[a][..c[a]]) + Coordinate(l, a) else 0;
      if a < |c| {
        assert Coordinate(l, a) < Extent(d, a);
        StartNext(ps[a], c[a]);
        StartMonotone(ps[a], c[a] + 1, |ps[a]|);
        StartEnd(ps[a]);
      }
    }
  }

  lemma NamedIntervals(ps: seq<seq<nat>>, c: seq<nat>)
    requires NamesBlock(ps, c)
    ensures forall a | 0 <= a < |c| :: c[a] < |ps[a]|
  {
    assert forall a | 0 <= a < |c| :: c[a] < Counts(ps[..|c|])[a];
  }

  /** A block with an element reads it inside the source, so no axis that the cell dropped is without positions. */
  lemma DroppedAxes<T>(src: Tensor<T>, ps: seq<seq<nat>>, c: seq<nat>, l: seq<nat>, d: seq<nat>)
    requires src.Valid() && Readable(src, ps, c) && d == Canonical(CutDims(ps, c)) && Inside(l, d)
    ensures forall a | 0 <= a < |src.dims| :: src.dims[a] > 0
  {
    EncodeBound(l, d);
    assert GatherOffset(src.dims, d, CutStarts(ps, c), Encode(l, d)) < |src.data|;
    ProductPositive(src.dims);
  }

  lemma BlockElement<T>(src: Tensor<T>, ps: seq<seq<nat>>, c: seq<nat>, block: Tensor<T>, l: seq<nat>, x: seq<nat>)
    requires src.Valid() && |ps| == |src.dims| && Totals(ps) == src.dims && IsBlockOf(src, ps, c, block)
    requires (forall a | 0 <= a < |c| :: c[a] < |ps[a]|) && Inside(l, block.dims) && IsMoved(ps, c, l, x)
    ensures Within(x, src.dims) && Element(src, x) == At(block, l)
  {
    var d := Canonical(CutDims(ps, c));
    DroppedAxes(src, ps, c, l, d);
    MovedWithin(src.dims, ps, c, d, l, x);
    EncodeBound(l, d);
    DecodeEncode(l, d);
    MovedIsShifted(ps, c, l, x, |src.dims|);
  }

  lemma CutHoldsBlock<T>(src: Tensor<T>, ps: seq<seq<nat>>, c: seq<nat>, block: Tensor<T>)
    requires src.Valid() && |ps| == |src.dims| && Totals(ps) == src.dims && IsBlockOf(src, ps, c, block)
    ensures (forall a | 0 <= a < |c| :: c[a] < |ps[a]|) && HoldsBlock(src, ps, c, block)
  {
    NamedIntervals(ps, c);
    BlockExtents(ps, c, block.dims);
    forall l: seq<nat>, x: seq<nat> | Inside(l, block.dims) && IsMoved(ps, c, l, x)
      ensures Within(x, src.dims) && Element(src, x) == At(block, l)
    {
      BlockElement(src, ps, c, block, l, x);
    }
  }

  lemma CutHoldsAt<T>(src: Tensor<T>, ps: seq<seq<nat>>, cells: seq<seq<nat>>, cell: Cell<T>, c: seq<nat>)
    requires src.Valid() && |ps| == |src.dims| && Totals(ps) == src.dims && cell.Valid() && IsCutInto(src, ps, cells, cell)
    requires Inside(c, cell.dims) && |cell.dims| <= |ps|
    ensures HoldsAt(src, ps, cell, c)
  {
    EncodeBound(c, cell.dims);
    DecodeEncode(c, cell.dims);
    var k := Encode(c, cell.dims);
    assert Decode(k, cell.dims) == c && cells[k] == c;
    CutHoldsBlock(src, ps, c, cell.blocks[k]);
  }

  /** What a cut is, by coordinates. */
  lemma CutHoldsBlocks<T>(src: Tensor<T>, ps: seq<seq<nat>>, cells: seq<seq<nat>>, cell: Cell<T>)
    requires src.Valid() && |ps| == |src.dims| && Totals(ps) == src.dims && cell.Valid() && IsCutInto(src, ps, cells, cell)
    ensures HoldsBlocks(src, ps, cell)
  {
    CanonicalIsCanonical(Counts(ps));
    var extra := CanonicalSplit(Counts(ps));
    forall c: seq<nat> | Inside(c, cell.dims) ensures HoldsAt(src, ps, cell, c) {
      CutHoldsAt(src, ps, cells, cell, c);
    }
  }

  // ----- one vector for the first axis

  /** Block `i` has `p[i]` rows of the source, below the rows of the blocks before it, over all its columns. */
  ghost predicate HoldsRowsAt<T>(src: Tensor<T>, p: seq<nat>, i: nat, block: Tensor<T>)
    requires src.Valid() && i < |p|
  {
    && block.Valid() && block.dims == [p[i], src.dims[1]]
    && forall row: nat, column: nat | row < p[i] && column < src.dims[1] :: HoldsRow(src, p, i, block, row, column)
  }

  ghost predicate HoldsRow<T>(src: Tensor<T>, p: seq<nat>, i: nat, block: Tensor<T>, row: nat, column: nat)
    requires src.Valid() && i < |p|
  {
    var to, from := row + p[i] * column, Sum(p[..i]) + row + src.dims[0] * column;
    to < |block.data| && from < |src.data| && block.data[to] == src.data[from]
  }

  ghost predicate HoldsRows<T>(src: Tensor<T>, p: seq<nat>, cell: Cell<T>)
    requires src.Valid()
  {
    && cell.Valid() && cell.dims == [|p|, 1] && |cell.blocks| == |p|
    && forall i: nat | i < |p| :: HoldsRowsAt(src, p, i, cell.blocks[i])
  }

  /** One vector per axis: the ones supplied, and a single interval for each remaining axis. */
  function Completed(dims: seq<nat>, supplied: seq<seq<nat>>): seq<seq<nat>> {
    seq(|dims|, k requires 0 <= k < |dims| => if k < |supplied| then supplied[k] else [dims[k]])
  }

  method SumOf(p: seq<nat>) returns (sum: nat)
    ensures sum == Sum(p)
  {
    sum := 0;
    for k := 0 to |p|
      invariant sum == Sum(p[..k])
    {
      assert p[..k + 1][..k] == p[..k];
      sum := sum + p[k];
    }
    assert p[..|p|] == p;
  }

  lemma FirstCanCut(dims: seq<nat>, p: seq<nat>, page: nat)
    requires |dims| >= 2 && page == dims[0] * dims[1]
    ensures CanCut(dims, Completed(dims, [p])) <==> Product(dims) > 0 || page == 0
  {
    FirstAxisCell(dims, p);
    assert dims[..2] == [dims[0], dims[1]];
    Encode2(0, 0, dims[0], dims[1]);
  }

  lemma AllSums(dims: seq<nat>, ps: seq<seq<nat>>)
    requires |ps| == |dims|
    ensures Completed(dims, ps) == ps && (Totals(ps) == dims <==> forall a | 0 <= a < |dims| :: Sum(ps[a]) == dims[a])
  {
    assert Totals(ps) == dims <==> forall a | 0 <= a < |dims| :: Totals(ps)[a] == dims[a];
  }

  lemma FirstSum(dims: seq<nat>, p: seq<nat>)
    requires |dims| >= 2
    ensures Totals(Completed(dims, [p])) == dims <==> Sum(p) == dims[0]
  {
    var t := Totals(Completed(dims, [p]));
    forall a | 1 <= a < |dims| ensures t[a] == dims[a] {
      OneInterval(dims[a]);
    }
    assert t[0] == Sum(p);
    assert t == dims <==> t[0] == dims[0];
  }

  lemma OneInterval(d: nat)
    ensures Sum([d]) == d && Sum([d][..0]) == 0
  {
    assert [d][..0] == [];
  }

  /** Cutting along the first axis alone, the cell keeps two axes. */
  lemma FirstAxisCell(dims: seq<nat>, p: seq<nat>)
    requires |dims| >= 2
    ensures Canonical(Counts(Completed(dims, [p]))) == [|p|, 1]
  {
    var d := Counts(Completed(dims, [p]));
    CanonicalIsCanonical(d);
    CanonicalIsCanonical([|p|, 1]);
    forall axis: nat ensures Extent(Canonical(d), axis) == Extent([|p|, 1], axis) {
    }
    CanonicalUnique(Canonical(d), [|p|, 1]);
  }

  lemma RowsFromBlocks<T>(src: Tensor<T>, p: seq<nat>, cell: Cell<T>)
    requires src.Valid() && HoldsBlocks(src, Completed(src.dims, [p]), cell)
    ensures HoldsRows(src, p, cell)
  {
    var ps := Completed(src.dims, [p]);
    forall axis: nat ensures Extent(cell.dims, axis) == Extent([|p|, 1], axis) {
    }
    CanonicalUnique(cell.dims, [|p|, 1]);
    Encode2(0, 0, |p|, 1);
    forall i: nat | i < |p| ensures HoldsRowsAt(src, p, i, cell.blocks[i]) {
      Encode2(i, 0, |p|, 1);
      assert HoldsAt(src, ps, cell, [i, 0]);
      RowsFromBlock(src, p, i, cell.blocks[i]);
    }
  }

  lemma RowsFromBlock<T>(src: Tensor<T>, p: seq<nat>, i: nat, block: Tensor<T>)
    requires src.Valid() && i < |p| && HoldsBlock(src, Completed(src.dims, [p]), [i, 0], block)
    ensures HoldsRowsAt(src, p, i, block)
  {
    var ps := Completed(src.dims, [p]);
    forall axis: nat ensures Extent(block.dims, axis) == Extent([p[i], src.dims[1]], axis) {
    }
    CanonicalUnique(block.dims, [p[i], src.dims[1]]);
    forall row: nat, column: nat | row < p[i] && column < src.dims[1] ensures HoldsRow(src, p, i, block, row, column) {
      RowFromBlock(src, p, i, block, row, column);
    }
  }

  lemma RowFromBlock<T>(src: Tensor<T>, p: seq<nat>, i: nat, block: Tensor<T>, row: nat, column: nat)
    requires src.Valid() && i < |p| && HoldsBlock(src, Completed(src.dims, [p]), [i, 0], block)
    requires block.dims == [p[i], src.dims[1]] && row < p[i] && column < src.dims[1]
    ensures HoldsRow(src, p, i, block, row, column)
  {
    var ps, l, x := Completed(src.dims, [p]), [row, column], [Sum(p[..i]) + row, column];
    OneInterval(src.dims[1]);
    assert ps[1] == [src.dims[1]];
    forall a: nat ensures Coordinate(x, a) == if a < 2 then Sum(ps[a][..[i, 0][a]]) + Coordinate(l, a) else 0 {
    }
    assert IsMoved(ps, [i, 0], l, x);
    Encode2(row, column, p[i], src.dims[1]);
    EncodeBound(l, block.dims);
    WithinBounds(x, src.dims);
    MatrixOffset(x[0], column, src.dims);
  }

  /** The offset of a position on the first page. */
  lemma MatrixOffset(row: nat, column: nat, d: seq<nat>)
    requires |d| >= 2
    ensures OffsetFrom([row, column], d) == row + d[0] * column
  {
    var tail := d[2..];
    assert d == [d[0], d[1]] + tail && Fit([row, column], |d|) == [row, column] + Zeros(|tail|);
    EncodeConcat([row, column], Zeros(|tail|), [d[0], d[1]], tail);
    Encode2(row, column, d[0], d[1]);
    EncodeZeros(tail);
  }

  lemma CompletedBlocks<T>(src: Tensor<T>, supplied: seq<seq<nat>>, cells: seq<seq<nat>>, cell: Cell<T>)
    requires src.Valid() && (|supplied| == 1 || |supplied| == |src.dims|) && cell.Valid()
    requires Totals(Completed(src.dims, supplied)) == src.dims && IsCutInto(src, Completed(src.dims, supplied), cells, cell)
    ensures |supplied| == 1 ==> HoldsRows(src, supplied[0], cell)
    ensures |supplied| == |src.dims| ==> HoldsBlocks(src, supplied, cell)
  {
    CutHoldsBlocks(src, Completed(src.dims, supplied), cells, cell);
    if |supplied| == 1 {
      assert supplied == [supplied[0]];
      RowsFromBlocks(src, supplied[0], cell);
    } else {
      assert Completed(src.dims, supplied) == supplied;
    }
  }

  /** The vectors of all axes, unless one does not sum to its extent. */
  method Complete(dims: seq<nat>, supplied: seq<seq<nat>>) returns (r: Option<seq<seq<nat>>>)
    ensures r == if Totals(Completed(dims, supplied)) == dims then Some(Completed(dims, supplied)) else None
  {
    var ps := [];
    ghost var all := Completed(dims, supplied);
    for k := 0 to |dims|
      invariant ps == all[..k] && forall j | 0 <= j < k :: Totals(all)[j] == dims[j]
    {
      var p := if k < |supplied| then supplied[k] else [dims[k]];
      var sum := SumOf(p);
      if sum != dims[k] {
        assert Totals(all)[k] != dims[k];
        return None;
      }
      ps := ps + [p];
    }
    assert all[..|dims|] == all && Totals(all) == dims;
    r := Some(ps);
  }

  /** Every way in which a cut can end. */
  ghost predicate CutEnds<T>(src: Tensor<T>, ps: seq<seq<nat>>, r: Result<Cell<T>, BlockError>) {
    && |ps| == |src.dims| >= 2
    && if Totals(ps) != src.dims then r == Err(SumMismatch)
       else (r.Ok? <==> CanCut(src.dims, ps)) && (r.Err? ==> r.error == OffsetOutside)
  }

  lemma OneVector<T>(src: Tensor<T>, p: seq<nat>, r: Result<Cell<T>, BlockError>, page: nat)
    requires src.Valid() && CutEnds(src, Completed(src.dims, [p]), r) && page == src.dims[0] * src.dims[1]
    ensures r == Err(SumMismatch) <==> Sum(p) != src.dims[0]
    ensures r.Ok? <==> Sum(p) == src.dims[0] && (Product(src.dims) > 0 || page == 0)
  {
    FirstSum(src.dims, p);
    FirstCanCut(src.dims, p, page);
  }

  lemma VectorPerAxis<T>(src: Tensor<T>, ps: seq<seq<nat>>, r: Result<Cell<T>, BlockError>)
    requires src.Valid() && |ps| == |src.dims| && CutEnds(src, Completed(src.dims, ps), r)
    ensures r == Err(SumMismatch) <==> exists a | 0 <= a < |src.dims| :: Sum(ps[a]) != src.dims[a]
    ensures r.Ok? <==> (forall a | 0 <= a < |src.dims| :: Sum(ps[a]) == src.dims[a]) && CanCut(src.dims, ps)
  {
    AllSums(src.dims, ps);
  }

  /**
   `mat2cell`: one partition vector for the first axis, or one per axis, each summing to its extent.  With one
   vector the blocks are rows of the first page, over all columns; with one per axis they are what the intervals
   of all axes that the cell keeps enclose.  Reading fails only on an array without elements.
   */
  method Mat2Cell<T>(src: Tensor<T>, supplied: seq<seq<nat>>) returns (r: Result<Cell<T>, BlockError>)
    requires src.Valid() && |supplied| >= 1
    ensures |supplied| != 1 && |supplied| != |src.dims| ==> r == Err(ArgumentCount)
    ensures |supplied| == 1 ==>
              && (r == Err(SumMismatch) <==> Sum(supplied[0]) != src.dims[0])
              && (r.Ok? <==> Sum(supplied[0]) == src.dims[0] && (Product(src.dims) > 0 || src.dims[0] * src.dims[1] == 0))
              && (r.Ok? ==> HoldsRows(src, supplied[0], r.value))
    ensures |supplied| == |src.dims| ==>
              && (r == Err(SumMismatch) <==> exists a | 0 <= a < |src.dims| :: Sum(supplied[a]) != src.dims[a])
              && (r.Ok? <==> (forall a | 0 <= a < |src.dims| :: Sum(supplied[a]) == src.dims[a]) && CanCut(src.dims, supplied))
              && (r.Ok? ==> HoldsBlocks(src, supplied, r.value))
    ensures r.Err? && (|supplied| == 1 || |supplied| == |src.dims|) ==> r.error == SumMismatch || r.error == OffsetOutside
  {
    if |supplied| != 1 && |supplied| != |src.dims| {
      return Err(ArgumentCount);
    }
    r := CutCompleted(src, supplied);
    if |supplied| == 1 {
      assert supplied == [supplied[0]];
      OneVector(src, supplied[0], r, src.dims[0] * src.dims[1]);
    } else {
      VectorPerAxis(src, supplied, r);
    }
  }

  method CutCompleted<T>(src: Tensor<T>, supplied: seq<seq<nat>>) returns (r: Result<Cell<T>, BlockError>)
    requires src.Valid() && (|supplied| == 1 || |supplied| == |src.dims|)
    ensures CutEnds(src, Completed(src.dims, supplied), r)
    ensures r.Ok? && |supplied| == 1 ==> HoldsRows(src, supplied[0], r.value)
    ensures r.Ok? && |supplied| == |src.dims| ==> HoldsBlocks(src, supplied, r.value)
  {
    var completed := Complete(src.dims, supplied);
    if completed.None? {
      return Err(SumMismatch);
    }
    ghost var cells;
    r, cells := CutBlocks(src, completed.value);
    if r.Ok? {
      CompletedBlocks(src, supplied, cells, r.value);
    }
  }

  /** So the blocks reach over all of the source exactly when it has rank two: otherwise they stop at its first page. */
  lemma RowsOfMatrix<T>(src: Tensor<T>, p: seq<nat>, cell: Cell<T>, i: nat)
    requires src.Valid() && HoldsRows(src, p, cell) && i < |p|
    ensures (forall a: nat | a > 0 :: Extent(cell.blocks[i].dims, a) == Extent(src.dims, a)) <==> |src.dims| == 2
  {
    assert HoldsRowsAt(src, p, i, cell.blocks[i]);
    if |src.dims| > 2 {
      assert Extent(cell.blocks[i].dims, |src.dims| - 1) != Extent(src.dims, |src.dims| - 1);
    }
  }

  /** Two pages of one element, cut by rows alone: the second page is in no block. */
  method FirstPageOnly() returns (r: Result<Cell<int>, BlockError>)
    ensures r.Ok? && r.value.dims == [1, 1] && |r.value.blocks| == 1
    ensures r.value.blocks[0] == Tensor([1, 1], [5])
  {
    var src: Tensor<int> := Tensor([1, 1, 2], [5, 6]);
    Encode3(0, 0, 0, 1, 1, 2);
    Encode2(0, 0, 1, 1);
    OneInterval(1);
    r := Mat2Cell(src, [[1]]);
    assert HoldsRowsAt(src, [1], 0, r.value.blocks[0]);
    assert HoldsRow(src, [1], 0, r.value.blocks[0], 0, 0);
  }

  /** A page without elements, left uncut: the block has an element, and reading it fails. */
  method UncutEmptyPages() returns (r: Result<Cell<int>, BlockError>)
    ensures r == Err(OffsetOutside)
  {
    var src: Tensor<int>, supplied := Tensor([1, 1, 0], []), [[1], [1], [0]];
    Encode3(0, 0, 0, 1, 1, 0);
    assert Sum([1]) == 1 && Sum([0]) == 0 by {
      assert [1][..0] == [] && [0][..0] == [];
    }
    assert forall a | 0 <= a < |src.dims| :: Sum(supplied[a]) == src.dims[a];
    assert Counts(supplied) == [1, 1, 1];
    assert Canonical([1, 1, 1]) == [1, 1];
    Encode2(0, 0, 1, 1);
    r := Mat2Cell(src, supplied);
    assert !CanCut(src.dims, supplied) by {
      assert src.dims[..2] == [1, 1];
    }
  }
}
