/**
 `num2cell` as a caller sees it: which cell, and which position of its block, every element comes to.
 */
module GroupedElements {
  import opened MixedRadix
  import opened Results
  import opened Shapes
  import opened Tensors
  import opened Coordinates
  import opened Blocks
  import opened Grouping

  /** The same dimensions in ascending order. */
  ghost predicate IsAscendingOf(s: seq<nat>, g: seq<nat>) {
    |s| == |g| && Ascending(s) && forall a: nat :: a in s <==> a in g
  }

  /** The coordinates along the dimensions that are not grouped, and zero along those that are. */
  ghost predicate IsCellOf(c: seq<nat>, x: seq<nat>, g: seq<nat>) {
    forall a: nat :: Coordinate(c, a) == if a in g then 0 else Coordinate(x, a)
  }

  /** The coordinates along the grouped dimensions in the order listed, put at those dimensions in ascending order. */
  ghost predicate IsPositionOf(l: seq<nat>, x: seq<nat>, g: seq<nat>, s: seq<nat>)
    requires |s| == |g|
  {
    && (forall i | 0 <= i < |g| :: Coordinate(l, s[i]) == Coordinate(x, g[i]))
    && forall a: nat | a !in s :: Coordinate(l, a) == 0
  }

  /** The element of the source at `x` is in the block at `c`, at position `l`. */
  ghost predicate LandsAt<T>(src: Tensor<T>, cell: Cell<T>, x: seq<nat>, c: seq<nat>, l: seq<nat>)
    requires src.Valid() && Within(x, src.dims)
  {
    && Within(c, cell.dims) && OffsetFrom(c, cell.dims) < |cell.blocks|
    && var block := cell.blocks[OffsetFrom(c, cell.dims)];
       block.Valid() && Within(l, block.dims) && Element(block, l) == Element(src, x)
  }

  /** The grouped extents are those of every block, at the ascending positions; the others are those of the cell. */
  ghost predicate HasExtents<T>(dims: seq<nat>, g: seq<nat>, s: seq<nat>, cell: Cell<T>)
    requires |s| == |g|
  {
    && cell.Valid()
    && (forall a: nat :: Extent(cell.dims, a) == if a in g then 1 else Extent(dims, a))
    && forall k | 0 <= k < |cell.blocks| :: BlockHasExtents(dims, g, s, cell.blocks[k].dims)
  }

  ghost predicate BlockHasExtents(dims: seq<nat>, g: seq<nat>, s: seq<nat>, block: seq<nat>)
    requires |s| == |g|
  {
    && (forall i | 0 <= i < |g| :: Extent(block, s[i]) == Extent(dims, g[i]))
    && forall a: nat | a !in s :: Extent(block, a) == 1
  }

  /** Every element of the source is in the cell and at the position that its coordinates say. */
  ghost predicate IsGrouped<T>(src: Tensor<T>, g: seq<nat>, s: seq<nat>, cell: Cell<T>)
    requires src.Valid() && |s| == |g|
  {
    && HasExtents(src.dims, g, s, cell)
    && forall x: seq<nat>, c: seq<nat>, l: seq<nat> | Within(x, src.dims) && IsCellOf(c, x, g) && IsPositionOf(l, x, g, s) ::
         LandsAt(src, cell, x, c, l)
  }

  lemma SortedIsAscending(g: seq<nat>)
    requires Distinct(g)
    ensures IsAscendingOf(Sorted(g), g)
  {
    SortedKeeps(g);
  }

  lemma PlanCell(dims: seq<nat>, g: seq<nat>, plan: Plan)
    requires IsPlan(dims, g, plan)
    ensures forall a: nat :: Extent(plan.cells, a) == if a in g then 1 else Extent(dims, a)
  {
    CanonicalIsCanonical(CellExtents(plan.source, g));
    forall a: nat ensures Extent(plan.cells, a) == if a in g then 1 else Extent(dims, a) {
      if a in g {
        assert Extent(CellExtents(plan.source, g), a) == 1;
      }
    }
  }

  lemma PlanBlock(dims: seq<nat>, g: seq<nat>, plan: Plan)
    requires IsPlan(dims, g, plan)
    ensures BlockHasExtents(dims, g, plan.s, plan.block)
  {
    var full := BlockExtents(plan.source, g, plan.s);
    CanonicalIsCanonical(full);
    forall i | 0 <= i < |g| ensures Extent(plan.block, plan.s[i]) == Extent(dims, g[i]) {
      IndexOfUnique(plan.s, i);
      assert plan.s[i] in plan.s && full[plan.s[i]] == plan.source[g[i]];
    }
  }

  /** Coordinates over canonical extents and over the full ones lead to the same offset. */
  lemma SameOffset(c: seq<nat>, full: seq<nat>, y: seq<nat>)
    requires |full| >= 2 && Inside(y, full) && forall a: nat :: Coordinate(c, a) == Coordinate(y, a)
    ensures Within(c, Canonical(full)) && OffsetFrom(c, Canonical(full)) == Encode(y, full)
  {
    CanonicalIsCanonical(full);
    ExtendedCanonical(full);
    var d := Canonical(full);
    forall a: nat ensures Coordinate(c, a) < Extent(d, a) {
      assert Coordinate(y, a) < Extent(full, a);
    }
    StrippedIsCanonical(full);
    FitOffset(c, d, |full|);
    forall a | 0 <= a < |full| ensures Fit(c, |full|)[a] == y[a] {
      assert Coordinate(c, a) == Coordinate(y, a);
    }
    assert Fit(c, |full|) == y;
  }

  /** Two ways to write the same coordinates. */
  ghost predicate Same(x: seq<nat>, y: seq<nat>) {
    forall a: nat :: Coordinate(x, a) == Coordinate(y, a)
  }

  lemma CellSide(d: seq<nat>, g: seq<nat>, s: seq<nat>, x: seq<nat>, y: seq<nat>, c: seq<nat>)
    requires |d| >= 2 && Groups(g, s, |d|) && Inside(y, d) && Same(x, y) && IsCellOf(c, x, g)
    ensures var full := CellExtents(d, g);
            Within(c, Canonical(full)) && OffsetFrom(c, Canonical(full)) == Encode(CellPart(y, g), full)
  {
    PartsInside(y, d, g, s);
    var z := CellPart(y, g);
    forall a: nat ensures Coordinate(c, a) == Coordinate(z, a) {
      assert Coordinate(c, a) == if a in g then 0 else Coordinate(x, a);
      assert Coordinate(x, a) == Coordinate(y, a);
    }
    SameOffset(c, CellExtents(d, g), z);
  }

  lemma BlockSide(d: seq<nat>, g: seq<nat>, s: seq<nat>, x: seq<nat>, y: seq<nat>, l: seq<nat>)
    requires |d| >= 2 && Groups(g, s, |d|) && Inside(y, d) && Same(x, y) && IsPositionOf(l, x, g, s)
    ensures var full := BlockExtents(d, g, s);
            Within(l, Canonical(full)) && OffsetFrom(l, Canonical(full)) == Encode(BlockPart(y, g, s), full)
  {
    PartsInside(y, d, g, s);
    var z := BlockPart(y, g, s);
    forall a: nat ensures Coordinate(l, a) == Coordinate(z, a) {
      if a in s {
        var i := IndexOf(s, a);
        assert Coordinate(l, s[i]) == Coordinate(x, g[i]) == Coordinate(y, g[i]);
      } else {
        assert Coordinate(l, a) == 0;
      }
    }
    SameOffset(l, BlockExtents(d, g, s), z);
  }

  /** The numbers of cell and position together read the element. */
  lemma PairReads(d: seq<nat>, g: seq<nat>, s: seq<nat>, x: seq<nat>, y: seq<nat>, c: seq<nat>, l: seq<nat>, cs: seq<nat>, bs: seq<nat>)
    requires |d| >= 2 && Groups(g, s, |d|) && Inside(y, d) && Same(x, y) && IsCellOf(c, x, g) && IsPositionOf(l, x, g, s)
    requires cs == Canonical(CellExtents(d, g)) && bs == Canonical(BlockExtents(d, g, s))
    ensures Within(c, cs) && OffsetFrom(c, cs) < Product(cs)
    ensures Within(l, bs) && OffsetFrom(l, bs) < Product(bs)
    ensures GroupedOffset(d, cs, bs, g, s, OffsetFrom(c, cs), OffsetFrom(l, bs)) == Encode(y, d)
  {
    CellSide(d, g, s, x, y, c);
    BlockSide(d, g, s, x, y, l);
    PairOfParts(d, g, s, y);
  }

  lemma FitIsSame(x: seq<nat>, dims: seq<nat>, n: nat, d: seq<nat>)
    requires IsCanonical(dims) && Within(x, dims) && |dims| <= n && d == Extended(dims, n)
    ensures |d| >= 2 && Inside(Fit(x, n), d) && Same(x, Fit(x, n)) && Encode(Fit(x, n), d) == OffsetFrom(x, dims)
  {
    FitOffset(x, dims, n);
  }

  /** The pair of cell and position, and the source offset that the plan reads there. */
  lemma PairAt(dims: seq<nat>, g: seq<nat>, plan: Plan, x: seq<nat>, c: seq<nat>, l: seq<nat>)
    requires IsCanonical(dims) && IsPlan(dims, g, plan) && Within(x, dims) && IsCellOf(c, x, g) && IsPositionOf(l, x, g, plan.s)
    ensures Within(c, plan.cells) && OffsetFrom(c, plan.cells) < Product(plan.cells)
    ensures Within(l, plan.block) && OffsetFrom(l, plan.block) < Product(plan.block)
    ensures PlanOffset(plan, OffsetFrom(c, plan.cells), OffsetFrom(l, plan.block)) == OffsetFrom(x, dims)
  {
    var n := Highest(g, |dims|);
    FitIsSame(x, dims, n, plan.source);
    PairReads(plan.source, g, plan.s, x, Fit(x, n), c, l, plan.cells, plan.block);
  }

  lemma PlanRead<T>(source: seq<T>, plan: Plan, offsets: seq<seq<nat>>, cell: Cell<T>, k: nat, b: nat, at: nat)
    requires ReadsAll(plan, |source|, offsets) && IsGroupedCell(source, plan, offsets, cell)
    requires k < Product(plan.cells) && b < Product(plan.block) && at == PlanOffset(plan, k, b)
    ensures k < |cell.blocks| && cell.blocks[k].dims == plan.block && b < |cell.blocks[k].data| && at < |source|
    ensures cell.blocks[k].data[b] == source[at]
  {
    assert Reads(plan, |source|, k, offsets[k]);
    assert offsets[k][b] == PlanOffset(plan, k, b);
  }

  lemma ElementLands<T>(src: Tensor<T>, g: seq<nat>, plan: Plan, offsets: seq<seq<nat>>, cell: Cell<T>, x: seq<nat>, c: seq<nat>, l: seq<nat>)
    requires src.Valid() && IsPlan(src.dims, g, plan) && ReadsAll(plan, |src.data|, offsets)
    requires cell.Valid() && IsGroupedCell(src.data, plan, offsets, cell)
    requires Within(x, src.dims) && IsCellOf(c, x, g) && IsPositionOf(l, x, g, plan.s)
    ensures LandsAt(src, cell, x, c, l)
  {
    PairAt(src.dims, g, plan, x, c, l);
    PlanRead(src.data, plan, offsets, cell, OffsetFrom(c, plan.cells), OffsetFrom(l, plan.block), OffsetFrom(x, src.dims));
  }

  /** What a grouped cell is, by coordinates. */
  lemma CellIsGrouped<T>(src: Tensor<T>, g: seq<nat>, plan: Plan, offsets: seq<seq<nat>>, cell: Cell<T>)
    requires src.Valid() && IsPlan(src.dims, g, plan) && ReadsAll(plan, |src.data|, offsets)
    requires cell.Valid() && IsGroupedCell(src.data, plan, offsets, cell)
    ensures IsGrouped(src, g, plan.s, cell)
  {
    PlanCell(src.dims, g, plan);
    PlanBlock(src.dims, g, plan);
    forall x: seq<nat>, c: seq<nat>, l: seq<nat> | Within(x, src.dims) && IsCellOf(c, x, g) && IsPositionOf(l, x, g, plan.s)
      ensures LandsAt(src, cell, x, c, l)
    {
      ElementLands(src, g, plan, offsets, cell, x, c, l);
    }
  }

  /** `num2cell`: fails exactly on a repeated dimension, and otherwise every element is where its coordinates say. */
  method GroupElements<T>(src: Tensor<T>, dimensions: seq<nat>) returns (r: Option<Cell<T>>, ghost s: seq<nat>)
    requires src.Valid() && forall i | 0 <= i < |dimensions| :: dimensions[i] > 0
    ensures r.Some? <==> forall i, j | 0 <= i < j < |dimensions| :: dimensions[i] != dimensions[j]
    ensures r.Some? ==> IsAscendingOf(s, ZeroBased(dimensions)) && IsGrouped(src, ZeroBased(dimensions), s, r.value)
  {
    ghost var plan, offsets;
    ghost var g := ZeroBased(dimensions);
    r, plan, offsets := Num2Cell(src, dimensions);
    assert forall i | 0 <= i < |dimensions| :: g[i] == dimensions[i] - 1;
    s := [];
    if r.Some? {
      s := plan.s;
      SortedIsAscending(g);
      CellIsGrouped(src, g, plan, offsets, r.value);
    }
  }
}
