/**
 How `cell2mat` undoes `num2cell` for an ascending or empty list of dimensions: the blocks sit in a grid
 that keeps each grouped axis whole and cuts the others into single elements, and tiling that grid
 rebuilds the source.
 */
module GroupRoundTrip {
  import opened MixedRadix
  import opened Results
  import opened Shapes
  import opened Tensors
  import opened Partitions
  import opened Blocks
  import opened Tiling
  import opened BlockRoundTrip
  import opened Grouping

  /** Along a grouped axis one interval, along any other axis an interval per coordinate. */
  function Grid(d: seq<nat>, g: seq<nat>): (ps: seq<seq<nat>>)
    ensures |ps| == |d|
  {
    seq(|d|, k requires 0 <= k < |d| => if k in g then [d[k]] else Ones(d[k]))
  }

  lemma {:induction false} SumOnes(k: nat)
    ensures Sum(Ones(k)) == k
  {
    if k > 0 {
      SumOnes(k - 1);
      assert Ones(k)[..k - 1] == Ones(k - 1);
    }
  }

  lemma LocateInOnes(k: nat, x: nat)
    requires x < k
    ensures Sum(Ones(k)) == k && Start(Ones(k), x) == x && Locate(Ones(k), x) == x
  {
    SumOnes(k);
    SumOnes(x);
    assert Ones(k)[..x] == Ones(x);
    LocateUnique(Ones(k), x, x);
  }

  lemma LocateInOne(e: nat, x: nat)
    requires x < e
    ensures Sum([e]) == e && Start([e], 0) == 0 && Locate([e], x) == 0
  {
    assert [e][..0] == [];
  }

  lemma GridSizes(d: seq<nat>, g: seq<nat>)
    ensures Counts(Grid(d, g)) == CellExtents(d, g) && Totals(Grid(d, g)) == d
  {
    forall k | 0 <= k < |d| ensures Sum(Grid(d, g)[k]) == d[k] {
      SumOnes(d[k]);
      assert [d[k]][..0] == [];
    }
  }

  /** In this grid a position is found at its cell part and its block part. */
  lemma GridParts(d: seq<nat>, g: seq<nat>, x: seq<nat>)
    requires Groups(g, g, |d|) && Inside(x, d)
    ensures Totals(Grid(d, g)) == d
    ensures CellOf(Grid(d, g), x) == CellPart(x, g) && LocalOf(Grid(d, g), x) == BlockPart(x, g, g)
  {
    GridSizes(d, g);
    forall k | 0 <= k < |d|
      ensures CellOf(Grid(d, g), x)[k] == CellPart(x, g)[k] && LocalOf(Grid(d, g), x)[k] == BlockPart(x, g, g)[k]
    {
      if k in g {
        LocateInOne(d[k], x[k]);
      } else {
        LocateInOnes(d[k], x[k]);
      }
    }
  }

  // ----- the rank at which tiling works

  /** Axes past the first `m` are singletons, in the source and so in the cell and the blocks. */
  ghost predicate OnlyOnesPast(d: seq<nat>, m: nat) {
    2 <= m <= |d| && forall k | m <= k < |d| :: d[k] == 1
  }

  lemma CutRank(d: seq<nat>, m: nat)
    requires OnlyOnesPast(d, m)
    ensures d == d[..m] + Ones(|d| - m) && Product(d[..m]) == Product(d)
  {
    var front, k := d[..m], |d| - m;
    assert d == front + Ones(k);
    ExtendedSameOffsets(front, front, k);
  }

  lemma TileRankOfGroups<T>(d: seq<nat>, g: seq<nat>, blocks: seq<Tensor<T>>) returns (m: nat)
    requires |d| >= 2 && Groups(g, g, |d|) && blocks != []
    requires forall k | 0 <= k < |blocks| :: blocks[k].dims == Canonical(BlockExtents(d, g, g))
    ensures m == TileRank(|Canonical(CellExtents(d, g))|, blocks)
    ensures OnlyOnesPast(d, m)
    ensures Extended(Canonical(CellExtents(d, g)), m) == CellExtents(d, g)[..m]
    ensures Extended(Canonical(BlockExtents(d, g, g)), m) == BlockExtents(d, g, g)[..m]
  {
    var cd, bd := CellExtents(d, g), BlockExtents(d, g, g);
    m := TileRank(|Canonical(cd)|, blocks);
    var a := CanonicalSplit(cd);
    var b := CanonicalSplit(bd);
    assert |blocks[0].dims| == |Canonical(bd)|;
    ExtendedPrefix(cd, Canonical(cd), a, m);
    ExtendedPrefix(bd, Canonical(bd), b, m);
    forall k | m <= k < |d| ensures d[k] == 1 {
      assert cd[k] == 1 && bd[k] == 1;
    }
  }

  lemma ExtendedPrefix(full: seq<nat>, head: seq<nat>, extra: nat, m: nat)
    requires full == head + Ones(extra) && |head| <= m <= |full|
    ensures Extended(head, m) == full[..m] && forall k | m <= k < |full| :: full[k] == 1
  {
  }

  lemma GridPrefix(d: seq<nat>, g: seq<nat>, m: nat, c: seq<nat>)
    requires Groups(g, g, |d|) && OnlyOnesPast(d, m) && Inside(c, CellExtents(d, g)[..m])
    ensures Counts(Grid(d, g)[..m]) == CellExtents(d, g)[..m]
    ensures BlockDims(Grid(d, g)[..m], c) == BlockExtents(d, g, g)[..m]
  {
    GridSizes(d, g);
    var ps := Grid(d, g)[..m];
    assert forall k | 0 <= k < m :: Counts(ps)[k] == Counts(Grid(d, g))[k];
    forall k | 0 <= k < m ensures BlockDims(ps, c)[k] == BlockExtents(d, g, g)[k] {
      assert c[k] < CellExtents(d, g)[k];
    }
  }

  lemma GridFits(d: seq<nat>, g: seq<nat>, m: nat, cells: seq<seq<nat>>, bd: seq<seq<nat>>)
    requires Groups(g, g, |d|) && OnlyOnesPast(d, m) && |bd| == |cells| && cells != []
    requires forall k | 0 <= k < |cells| :: Inside(cells[k], CellExtents(d, g)[..m]) && bd[k] == BlockExtents(d, g, g)[..m]
    ensures FitsGrid(CellExtents(d, g)[..m], cells, bd, Grid(d, g)[..m])
  {
    forall k | 0 <= k < |cells| ensures bd[k] == BlockDims(Grid(d, g)[..m], cells[k]) {
      GridPrefix(d, g, m, cells[k]);
    }
    GridPrefix(d, g, m, cells[0]);
  }

  /** The blocks of the cell fit the grid. */
  lemma GroupsFitGrid<T>(d: seq<nat>, g: seq<nat>, cell: Cell<T>, cells: seq<seq<nat>>, m: nat)
    requires |d| >= 2 && Groups(g, g, |d|) && OnlyOnesPast(d, m) && cell.blocks != []
    requires cell.dims == Canonical(CellExtents(d, g)) && m == TileRank(|cell.dims|, cell.blocks)
    requires forall k | 0 <= k < |cell.blocks| :: cell.blocks[k].dims == Canonical(BlockExtents(d, g, g))
    requires Extended(cell.dims, m) == CellExtents(d, g)[..m]
    requires Extended(Canonical(BlockExtents(d, g, g)), m) == BlockExtents(d, g, g)[..m]
    requires ListsCell(cell, cells) && |cells| == |cell.blocks|
    ensures FitsCell(cell, cells, Grid(d, g)[..m])
  {
    GridFits(d, g, m, cells, ExtendedDims(cell.blocks, m));
  }

  /** The block and the element that tiling looks up are those that grouping filled. */
  lemma GridIndices(d: seq<nat>, g: seq<nat>, m: nat, x: nat)
    requires Groups(g, g, |d|) && OnlyOnesPast(d, m) && x < Product(d)
    ensures var ps := Grid(d, g)[..m];
            && Totals(ps) == d[..m] && x < Product(Totals(ps))
            && BlockIndex(ps, x) == CellNumber(d, g, x) && ElementIndex(ps, x) == ElementNumber(d, g, g, x)
  {
    var ps, at := Grid(d, g)[..m], Decode(x, d);
    GridPosition(d, g, m, x);
    PartsOnesPast(d, g, m);
    GridPrefix(d, g, m, CellPart(at, g)[..m]);
    PrefixOffset(CellPart(at, g), CellExtents(d, g), m);
    PrefixOffset(BlockPart(at, g, g), BlockExtents(d, g, g), m);
  }

  lemma PartsOnesPast(d: seq<nat>, g: seq<nat>, m: nat)
    requires Groups(g, g, |d|) && OnlyOnesPast(d, m)
    ensures OnlyOnesPast(CellExtents(d, g), m) && OnlyOnesPast(BlockExtents(d, g, g), m)
  {
  }

  lemma GridPosition(d: seq<nat>, g: seq<nat>, m: nat, x: nat)
    requires Groups(g, g, |d|) && OnlyOnesPast(d, m) && x < Product(d)
    ensures var ps, at, front := Grid(d, g)[..m], Decode(x, d), Decode(x, d[..m]);
            && Totals(ps) == d[..m] && x < Product(d[..m])
            && Inside(CellPart(at, g), CellExtents(d, g)) && Inside(BlockPart(at, g, g), BlockExtents(d, g, g))
            && Inside(front, Totals(ps))
            && CellOf(ps, front) == CellPart(at, g)[..m] && LocalOf(ps, front) == BlockPart(at, g, g)[..m]
            && Inside(CellPart(at, g)[..m], CellExtents(d, g)[..m])
  {
    var all, at := Grid(d, g), Decode(x, d);
    CutRank(d, m);
    GridSizes(d, g);
    assert Totals(all[..m]) == d[..m] by {
      assert forall k | 0 <= k < m :: Totals(all[..m])[k] == Totals(all)[k];
    }
    EncodeDecode(x, d);
    DecodeSplit(x, d[..m], |d| - m);
    GridParts(d, g, at);
    PrefixParts(all, m, at);
    assert at[..m] == Decode(x, d[..m]);
    PartsInside(at, d, g, g);
  }

  lemma PrefixParts(ps: seq<seq<nat>>, m: nat, x: seq<nat>)
    requires m <= |ps| && Inside(x, Totals(ps))
    ensures Inside(x[..m], Totals(ps[..m]))
    ensures CellOf(ps[..m], x[..m]) == CellOf(ps, x)[..m] && LocalOf(ps[..m], x[..m]) == LocalOf(ps, x)[..m]
  {
    assert forall k | 0 <= k < m :: x[k] < Totals(ps)[k] == Sum(ps[k]);
  }

  lemma PrefixOffset(c: seq<nat>, d: seq<nat>, m: nat)
    requires Inside(c, d) && OnlyOnesPast(d, m)
    ensures Encode(c[..m], d[..m]) == Encode(c, d)
  {
    CutRank(d, m);
    var k := |d| - m;
    assert c[m..] == Zeros(k) by {
      forall i | 0 <= i < k ensures c[m..][i] == 0 {
        assert c[m + i] < d[m + i];
      }
    }
    assert c == c[..m] + Zeros(k);
    ExtendedSameOffsets(c[..m], d[..m], k);
  }

  // ----- rebuilding the source

  lemma CanonicalOfExtended(dims: seq<nat>, n: nat, m: nat)
    requires IsCanonical(dims) && OnlyOnesPast(Extended(dims, n), m)
    ensures Canonical(Extended(dims, n)[..m]) == dims
  {
    var d := Extended(dims, n);
    CanonicalIsCanonical(d[..m]);
    forall axis: nat ensures Extent(Canonical(d[..m]), axis) == Extent(dims, axis) {
      assert Extent(d[..m], axis) == Extent(d, axis) == Extent(dims, axis);
    }
    CanonicalUnique(Canonical(d[..m]), dims);
  }

  lemma RebuiltAt<T>(src: Tensor<T>, plan: Plan, offsets: seq<seq<nat>>, cell: Cell<T>, m: nat, x: nat)
    requires ReadsAll(plan, |src.data|, offsets) && plan.s == plan.g && IsGroupedCell(src.data, plan, offsets, cell)
    requires OnlyOnesPast(plan.source, m) && x < Product(plan.source)
    ensures var ps := Grid(plan.source, plan.g)[..m];
            && Totals(ps) == plan.source[..m] && x < Product(Totals(ps)) && x < |src.data|
            && var k, b := BlockIndex(ps, x), ElementIndex(ps, x);
               k < |cell.blocks| && b < |cell.blocks[k].data| && cell.blocks[k].data[b] == src.data[x]
  {
    GridIndices(plan.source, plan.g, m, x);
    var k, b := FoundOffset(plan, |src.data|, offsets, x);
    assert Holds(src.data, offsets[k], cell.blocks[k]);
  }

  lemma FoundOffset(plan: Plan, size: nat, offsets: seq<seq<nat>>, x: nat) returns (k: nat, b: nat)
    requires ReadsAll(plan, size, offsets) && plan.s == plan.g && x < Product(plan.source)
    ensures k == CellNumber(plan.source, plan.g, x) && b == ElementNumber(plan.source, plan.g, plan.g, x)
    ensures k < |offsets| && b < |offsets[k]| && offsets[k][b] == x && size == Product(plan.source)
  {
    OffsetHasPair(plan.source, plan.g, plan.g, x);
    k, b := CellNumber(plan.source, plan.g, x), ElementNumber(plan.source, plan.g, plan.g, x);
    assert Reads(plan, size, k, offsets[k]);
    assert offsets[k][b] == PlanOffset(plan, k, b);
  }

  lemma GridTotals(d: seq<nat>, g: seq<nat>, m: nat)
    requires m <= |d|
    ensures |Grid(d, g)| == |d| && Totals(Grid(d, g)[..m]) == d[..m]
  {
    GridSizes(d, g);
    assert forall k | 0 <= k < m :: Totals(Grid(d, g)[..m])[k] == Totals(Grid(d, g))[k];
  }

  lemma TilingRebuilds<T>(src: Tensor<T>, plan: Plan, offsets: seq<seq<nat>>, cell: Cell<T>, m: nat, whole: Tensor<T>)
    requires src.Valid() && ReadsAll(plan, |src.data|, offsets) && plan.s == plan.g
    requires IsGroupedCell(src.data, plan, offsets, cell) && OnlyOnesPast(plan.source, m)
    requires Canonical(plan.source[..m]) == src.dims && Product(plan.source) == |src.data|
    requires IsTiling(cell.blocks, Grid(plan.source, plan.g)[..m], whole)
    ensures whole == src
  {
    var ps := Grid(plan.source, plan.g)[..m];
    CutRank(plan.source, m);
    GridTotals(plan.source, plan.g, m);
    forall x | 0 <= x < |src.data| ensures whole.data[x] == src.data[x] {
      RebuiltAt(src, plan, offsets, cell, m, x);
    }
  }

  lemma GroupedBlocksTile<T>(src: Tensor<T>, plan: Plan, offsets: seq<seq<nat>>, cell: Cell<T>, listed: seq<seq<nat>>)
    returns (m: nat)
    requires src.Valid() && cell.Valid() && cell.blocks != [] && ListsCell(cell, listed)
    requires IsPlan(src.dims, plan.g, plan) && plan.s == plan.g
    requires ReadsAll(plan, |src.data|, offsets) && IsGroupedCell(src.data, plan, offsets, cell)
    ensures OnlyOnesPast(plan.source, m) && Canonical(plan.source[..m]) == src.dims
    ensures m == TileRank(|cell.dims|, cell.blocks) && FitsCell(cell, listed, Grid(plan.source, plan.g)[..m])
    ensures |listed| == |cell.blocks|
  {
    m := TileRankOfGroups(plan.source, plan.g, cell.blocks);
    ExtendedSize(cell.dims, m);
    GroupsFitGrid(plan.source, plan.g, cell, listed, m);
    CanonicalOfExtended(src.dims, Highest(plan.g, |src.dims|), m);
  }

  /** Blocks that some grid fits are not refused. */
  lemma SomeGridFits<T>(cell: Cell<T>, listed: seq<seq<nat>>, ps: seq<seq<nat>>, accepted: bool)
    requires FitsCell(cell, listed, ps) && (!accepted ==> forall qs :: !FitsCell(cell, listed, qs))
    ensures accepted
  {
  }

  lemma SameGrid<T>(cell: Cell<T>, listed: seq<seq<nat>>, ps: seq<seq<nat>>, qs: seq<seq<nat>>)
    requires cell.Valid() && cell.blocks != [] && ListsCell(cell, listed) && FitsCell(cell, listed, ps) && FitsCell(cell, listed, qs)
    ensures ps == qs
  {
    var n := TileRank(|cell.dims|, cell.blocks);
    ExtendedSize(cell.dims, n);
    GridUnique(Extended(cell.dims, n), listed, ExtendedDims(cell.blocks, n), ps, qs);
  }

  /** Tiling the blocks of an ascending grouping gives back the source. */
  lemma TiledIsSource<T>(src: Tensor<T>, plan: Plan, offsets: seq<seq<nat>>, cell: Cell<T>,
                         listed: seq<seq<nat>>, qs: seq<seq<nat>>, whole: Result<Tensor<T>, BlockError>)
    requires src.Valid() && cell.Valid() && cell.blocks != [] && ListsCell(cell, listed)
    requires IsPlan(src.dims, plan.g, plan) && plan.s == plan.g
    requires ReadsAll(plan, |src.data|, offsets) && IsGroupedCell(src.data, plan, offsets, cell)
    requires whole.Ok? ==> FitsCell(cell, listed, qs) && IsTiling(cell.blocks, qs, whole.value)
    requires whole.Err? ==> forall ps :: !FitsCell(cell, listed, ps)
    ensures whole == Ok(src)
  {
    var m := GroupedBlocksTile(src, plan, offsets, cell, listed);
    SomeGridFits(cell, listed, Grid(plan.source, plan.g)[..m], whole.Ok?);
    SameGrid(cell, listed, Grid(plan.source, plan.g)[..m], qs);
    ExtendedSize(src.dims, Highest(plan.g, |src.dims|));
    TilingRebuilds(src, plan, offsets, cell, m, whole.value);
  }
}
