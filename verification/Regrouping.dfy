/**
 What `cell2mat` makes of `num2cell` for every list of dimensions: the array that `ipermute` makes when it
 sends each listed dimension to the position it takes in the blocks, unless the cell is empty.  For an
 ascending list that is the array itself.
 */
module Regrouping {
  import opened MixedRadix
  import opened Results
  import opened Shapes
  import opened Tensors
  import opened Coordinates
  import opened Blocks
  import opened Tiling
  import opened Grouping
  import opened GroupRoundTrip
  import opened Permuting

  /** Where each dimension goes: listed ones to the positions in ascending order, others stay. */
  function GroupOrder(g: seq<nat>, s: seq<nat>, n: nat): (order: seq<nat>)
    requires |s| == |g|
    ensures |order| == n
  {
    seq(n, k requires 0 <= k < n => if k in g then s[IndexOf(g, k)] else k)
  }

  /** The two lists hold the same dimensions. */
  ghost predicate SameMembers(g: seq<nat>, s: seq<nat>) {
    forall k: nat :: k in g <==> k in s
  }

  lemma GroupOrderIsPermutation(g: seq<nat>, s: seq<nat>, n: nat)
    requires Groups(g, s, n) && SameMembers(g, s)
    ensures IsPermutation(GroupOrder(g, s, n))
  {
    var order := GroupOrder(g, s, n);
    forall i, j | 0 <= i < j < n ensures order[i] != order[j] {
      if i in g && j in g {
        assert IndexOf(g, i) != IndexOf(g, j);
      } else if i in g {
        assert order[i] in s && j !in s;
      } else if j in g {
        assert order[j] in s && i !in s;
      }
    }
  }

  lemma AscendingOrder(g: seq<nat>, n: nat)
    ensures IsIdentity(GroupOrder(g, g, n))
  {
  }

  // ----- grouping the permuted array

  lemma OrderAt(g: seq<nat>, s: seq<nat>, n: nat, i: nat)
    requires Groups(g, s, n) && i < |g|
    ensures GroupOrder(g, s, n)[g[i]] == s[i]
  {
    IndexOfUnique(g, i);
  }

  lemma RegroupExtents(d: seq<nat>, e: seq<nat>, g: seq<nat>, s: seq<nat>)
    requires Groups(g, s, |d|) && SameMembers(g, s) && |e| == |d|
    requires IsPermutation(GroupOrder(g, s, |d|)) && Pick(e, GroupOrder(g, s, |d|)) == d
    ensures CellExtents(e, s) == CellExtents(d, g) && BlockExtents(e, s, s) == BlockExtents(d, g, s)
    ensures forall k | 0 <= k < |d| && k !in g :: e[k] == d[k]
  {
    var order := GroupOrder(g, s, |d|);
    forall k | 0 <= k < |d| && k !in g ensures e[k] == d[k] {
      assert order[k] == k && Pick(e, order)[k] == d[k];
    }
    forall k | 0 <= k < |d| ensures BlockExtents(e, s, s)[k] == BlockExtents(d, g, s)[k] {
      if k in s {
        var i := IndexOf(s, k);
        OrderAt(g, s, |d|, i);
        assert Pick(e, order)[g[i]] == d[g[i]];
      }
    }
  }

  lemma RegroupMerged(c: seq<nat>, l: seq<nat>, g: seq<nat>, s: seq<nat>)
    requires |c| == |l| && Groups(g, s, |c|) && SameMembers(g, s) && IsPermutation(GroupOrder(g, s, |c|))
    ensures Pick(Merged(c, l, s, s), GroupOrder(g, s, |c|)) == Merged(c, l, g, s)
  {
    var order, y := GroupOrder(g, s, |c|), Merged(c, l, s, s);
    forall k | 0 <= k < |c| ensures Pick(y, order)[k] == Merged(c, l, g, s)[k] {
      if k in g {
        IndexOfUnique(s, IndexOf(g, k));
      }
    }
  }

  /** The element that a block reads is the one that the same block of the permuted array reads. */
  lemma RegroupOffset<T>(data: seq<T>, d: seq<nat>, g: seq<nat>, s: seq<nat>, e: seq<nat>, permuted: seq<T>, k: nat, b: nat)
    requires |d| >= 2 && Groups(g, s, |d|) && SameMembers(g, s)
    requires Picks(data, d, GroupOrder(g, s, |d|), e, permuted)
    requires k < Product(Canonical(CellExtents(d, g))) && b < Product(Canonical(BlockExtents(d, g, s)))
    ensures var cs, bs := Canonical(CellExtents(d, g)), Canonical(BlockExtents(d, g, s));
            var from, to := GroupedOffset(d, cs, bs, g, s, k, b), GroupedOffset(e, cs, bs, s, s, k, b);
            from < |data| && to < |permuted| && permuted[to] == data[from]
  {
    var cd, bd := CellExtents(d, g), BlockExtents(d, g, s);
    RegroupExtents(d, e, g, s);
    FitDecoded(k, cd);
    FitDecoded(b, bd);
    EncodeDecode(k, cd);
    EncodeDecode(b, bd);
    var c, l := Decode(k, cd), Decode(b, bd);
    MergedInside(c, l, d, g, s);
    MergedInside(c, l, e, s, s);
    RegroupMerged(c, l, g, s);
    OffsetFromInside(Merged(c, l, g, s), d);
    OffsetFromInside(Merged(c, l, s, s), e);
  }

  ghost function Regrouped(plan: Plan, e: seq<nat>): Plan {
    Plan(e, plan.cells, plan.block, plan.s, plan.s)
  }

  lemma RegroupedCell<T>(data: seq<T>, plan: Plan, offsets: seq<seq<nat>>, cell: Cell<T>, e: seq<nat>, permuted: seq<T>)
    returns (others: seq<seq<nat>>)
    requires ReadsAll(plan, |data|, offsets) && IsGroupedCell(data, plan, offsets, cell) && SameMembers(plan.g, plan.s)
    requires Picks(data, plan.source, GroupOrder(plan.g, plan.s, |plan.source|), e, permuted)
    ensures ReadsAll(Regrouped(plan, e), |permuted|, others) && IsGroupedCell(permuted, Regrouped(plan, e), others, cell)
  {
    RegroupExtents(plan.source, e, plan.g, plan.s);
    others := ReadsExist(Regrouped(plan, e));
    forall k | 0 <= k < |others| ensures Holds(permuted, others[k], cell.blocks[k]) {
      RegroupedBlock(data, plan, offsets[k], cell.blocks[k], e, permuted, others[k], k);
    }
  }

  lemma RegroupedBlock<T>(data: seq<T>, plan: Plan, offsets: seq<nat>, block: Tensor<T>, e: seq<nat>, permuted: seq<T>,
                          others: seq<nat>, k: nat)
    requires Reads(plan, |data|, k, offsets) && Holds(data, offsets, block) && SameMembers(plan.g, plan.s)
    requires Picks(data, plan.source, GroupOrder(plan.g, plan.s, |plan.source|), e, permuted)
    requires Reads(Regrouped(plan, e), |permuted|, k, others)
    ensures Holds(permuted, others, block)
  {
    forall b: nat | b < |others| ensures others[b] < |permuted| && block.data[b] == permuted[others[b]] {
      RegroupOffset(data, plan.source, plan.g, plan.s, e, permuted, k, b);
      assert offsets[b] == PlanOffset(plan, k, b);
      assert others[b] == PlanOffset(Regrouped(plan, e), k, b);
    }
  }

  // ----- the plan of the permuted array

  lemma {:induction false} HighestReached(g: seq<nat>, n: nat)
    ensures Highest(g, n) == n || (Highest(g, n) > n && Highest(g, n) - 1 in g)
  {
    if g != [] {
      HighestReached(g[..|g| - 1], n);
    }
  }

  lemma HighestIs(s: seq<nat>, k: nat, n: nat)
    requires k <= n && (forall i | 0 <= i < |s| :: s[i] < n) && (k == n || (n > 0 && n - 1 in s))
    ensures Highest(s, k) == n
  {
    HighestReached(s, k);
  }

  lemma LastKept(e: seq<nat>)
    requires |e| >= 2 && (|e| == 2 || e[|e| - 1] != 1)
    ensures |Canonical(e)| == |e|
  {
    var extra := CanonicalSplit(e);
  }

  /** Trailing singletons that the permutation makes do not lower the rank at which the grouping works. */
  lemma RankKept(dims: seq<nat>, g: seq<nat>, s: seq<nat>, e: seq<nat>)
    requires IsCanonical(dims) && SameMembers(g, s) && |e| == Highest(g, |dims|)
    requires forall k | 0 <= k < |e| && k !in g :: e[k] == Extended(dims, |e|)[k]
    ensures Extended(Canonical(e), Highest(s, |Canonical(e)|)) == e
  {
    var n := |e|;
    var extra := CanonicalSplit(e);
    HighestReached(g, |dims|);
    forall i | 0 <= i < |s| ensures s[i] < n {
      assert s[i] in g;
    }
    if n - 1 !in g {
      assert e[n - 1] == Extended(dims, n)[n - 1] == dims[n - 1];
      LastKept(e);
    }
    HighestIs(s, |Canonical(e)|, n);
    ExtendedCanonical(e);
  }

  lemma RegroupedPlan(dims: seq<nat>, plan: Plan, e: seq<nat>)
    requires IsCanonical(dims) && IsPlan(dims, plan.g, plan) && SameMembers(plan.g, plan.s)
    requires var order := GroupOrder(plan.g, plan.s, |plan.source|);
             IsPermutation(order) && |e| == |order| && Pick(e, order) == plan.source
    ensures IsPlan(Canonical(e), plan.s, Regrouped(plan, e))
  {
    SortedKeeps(plan.g);
    SortedKeeps(plan.s);
    RegroupExtents(plan.source, e, plan.g, plan.s);
    RankKept(dims, plan.g, plan.s, e);
  }

  lemma RegroupedTiles<T>(src: Tensor<T>, plan: Plan, offsets: seq<seq<nat>>, cell: Cell<T>, listed: seq<seq<nat>>,
                          qs: seq<seq<nat>>, whole: Result<Tensor<T>, BlockError>, permuted: Tensor<T>)
    requires src.Valid() && cell.Valid() && cell.blocks != [] && ListsCell(cell, listed)
    requires IsPlan(src.dims, plan.g, plan) && SameMembers(plan.g, plan.s)
    requires ReadsAll(plan, |src.data|, offsets) && IsGroupedCell(src.data, plan, offsets, cell)
    requires IsPermuted(src, GroupOrder(plan.g, plan.s, |plan.source|), permuted)
    requires whole.Ok? ==> FitsCell(cell, listed, qs) && IsTiling(cell.blocks, qs, whole.value)
    requires whole.Err? ==> forall ps :: !FitsCell(cell, listed, ps)
    ensures whole == Ok(permuted)
  {
    var order := GroupOrder(plan.g, plan.s, |plan.source|);
    var e :| Picks(src.data, Extended(src.dims, |order|), order, e, permuted.data) && permuted.dims == Canonical(e);
    RegroupedPlan(src.dims, plan, e);
    var others := RegroupedCell(src.data, plan, offsets, cell, e, permuted.data);
    TiledIsSource(permuted, Regrouped(plan, e), others, cell, listed, qs, whole);
  }

  /** The rank at which a list of dimensions groups an array, and the order it permutes them by. */
  function ListOrder(dims: seq<nat>, g: seq<nat>): (order: seq<nat>)
    ensures |order| == Highest(g, |dims|)
  {
    SortedKeeps(g);
    GroupOrder(g, Sorted(g), Highest(g, |dims|))
  }

  /** The cell has an entry. */
  predicate CellHasEntry(dims: seq<nat>, g: seq<nat>) {
    Product(CellExtents(Extended(dims, Highest(g, |dims|)), g)) > 0
  }

  /**
   Groups dimensions, tiles the blocks, and permutes the array by the order of the list.  Tiling gives the
   permuted array when the cell has an entry and the 0-by-0 array otherwise; on ascending lists the permuted
   array is the array itself, so it comes back exactly when the cell has an entry or the array is 0-by-0.
   */
  method GroupAndTile<T(==)>(src: Tensor<T>, dimensions: seq<nat>, filler: T) returns (r: Option<Tensor<T>>, permuted: Option<Tensor<T>>)
    requires src.Valid() && (forall i | 0 <= i < |dimensions| :: dimensions[i] > 0)
    ensures var g := ZeroBased(dimensions);
            && (r.Some? <==> Distinct(g)) && (permuted.Some? <==> Distinct(g))
            && (r.Some? ==>
                  && IsPermuted(src, ListOrder(src.dims, g), permuted.value)
                  && r.value == (if CellHasEntry(src.dims, g) then permuted.value else Nothing())
                  && (Ascending(g) ==> permuted.value == src)
                  && (Ascending(g) ==> (r.value == src <==> CellHasEntry(src.dims, g) || src.dims == [0, 0])))
  {
    var g := ZeroBased(dimensions);
    var cell, plan, offsets := Num2Cell(src, dimensions);
    if cell.None? {
      return None, None;
    }
    SortedKeeps(g);
    GroupOrderIsPermutation(g, Sorted(g), Highest(g, |src.dims|));
    var moved := InversePermute(src, ListOrder(src.dims, g));
    CanonicalIsCanonical(CellExtents(plan.source, g));
    var whole, listed, qs := Cell2Mat(cell.value, filler);
    if cell.value.blocks != [] {
      RegroupedTiles(src, plan, offsets, cell.value, listed, qs, whole, moved.value);
    }
    if Ascending(g) {
      AscendingOrder(g, Highest(g, |src.dims|));
      PermuteByIdentity(src, ListOrder(src.dims, g), moved.value);
    }
    Encode2(0, 0, 0, 0);
    r, permuted := Some(whole.value), Some(moved.value);
  }

  /** An array with three columns and no rows becomes an empty cell, and that becomes the 0-by-0 array. */
  method NoRows() returns (r: Option<Tensor<int>>)
    ensures r.Some? && r != Some(Tensor([0, 3], []))
  {
    var src: Tensor<int> := Tensor([0, 3], []);
    Encode2(0, 0, 0, 3);
    assert Extended(src.dims, Highest([], 2)) == [0, 3] && CellExtents([0, 3], []) == [0, 3];
    var permuted;
    r, permuted := GroupAndTile(src, [], 0);
  }

  /** Listing the dimensions of a row in descending order turns it into a column. */
  method DescendingTransposes() returns (r: Option<Tensor<int>>)
    ensures r == Some(Tensor([2, 1], [7, 8]))
  {
    var src := Tensor([1, 2], [7, 8]);
    Encode2(0, 0, 1, 2);
    var dimensions: seq<nat> := [2, 1];
    ghost var g: seq<nat> := [1, 0];
    assert ZeroBased(dimensions) == g && Distinct(g);
    DescendingOrder(g);
    var permuted;
    r, permuted := GroupAndTile(src, dimensions, 0);
    RowToColumn(src, ListOrder(src.dims, g), permuted.value);
  }

  lemma DescendingOrder(g: seq<nat>)
    requires g == [1, 0]
    ensures ListOrder([1, 2], g) == [1, 0] && CellHasEntry([1, 2], g)
  {
    assert g[..1] == [1] && [1][..0] == [];
    assert Highest([1], 2) == 2;
    assert g[1..] == [0] && Sorted([0]) == [0] && Insert(1, [0]) == [0, 1] by {
      assert [0][1..] == [] && Insert(1, []) == [1];
    }
    assert IndexOf(g, 0) == 1 && IndexOf(g, 1) == 0;
    assert CellExtents([1, 2], g) == [1, 1];
    Encode2(0, 0, 1, 1);
  }

  lemma PickedAt<T>(data: seq<T>, ext: seq<nat>, order: seq<nat>, out: seq<nat>, r: seq<T>, x: seq<nat>, o: nat, p: nat)
    requires Picks(data, ext, order, out, r) && Inside(x, out) && o == Encode(x, out) && p == Encode(Pick(x, order), ext)
    ensures o < |r| && p < |data| && r[o] == data[p]
  {
  }

  lemma RowPicked(ext: seq<nat>, order: seq<nat>, out: seq<nat>, r: seq<int>)
    requires ext == [1, 2] && order == [1, 0] && out == [2, 1] && Picks([7, 8], ext, order, out, r)
    ensures r == [7, 8]
  {
    Encode2(0, 0, 2, 1);
    Encode2(1, 0, 2, 1);
    Encode2(0, 0, 1, 2);
    Encode2(0, 1, 1, 2);
    assert Pick([0, 0], order) == [0, 0] && Pick([1, 0], order) == [0, 1];
    PickedAt([7, 8], ext, order, out, r, [0, 0], 0, 0);
    PickedAt([7, 8], ext, order, out, r, [1, 0], 1, 1);
  }

  lemma RowToColumn(src: Tensor<int>, order: seq<nat>, r: Tensor<int>)
    requires src == Tensor([1, 2], [7, 8]) && order == [1, 0] && IsPermuted(src, order, r)
    ensures r == Tensor([2, 1], [7, 8])
  {
    var ext := Extended(src.dims, 2);
    var out :| Picks(src.data, ext, order, out, r.data) && r.dims == Canonical(out);
    assert Pick(out, order)[0] == out[1] == 1 && Pick(out, order)[1] == out[0] == 2;
    assert out == [2, 1];
    RowPicked(ext, order, out, r.data);
  }
}
