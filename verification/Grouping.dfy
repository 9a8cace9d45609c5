/**
 `num2cell`: grouping whole dimensions of an array into the blocks of a cell.

 Grouped dimensions go to the blocks, the others to the cell.  The blocks hold the grouped dimensions
 in ascending positions but in the order listed, so an unsorted list transposes each block.
 */
module Grouping {
  import opened MixedRadix
  import opened Results
  import opened Sealing
  import opened Shapes
  import opened Tensors
  import opened Blocks

  // ----- lists of dimensions

  ghost predicate Ascending(g: seq<nat>) {
    forall i, j | 0 <= i < j < |g| :: g[i] < g[j]
  }

  function IndexOf(g: seq<nat>, d: nat): (i: nat)
    requires d in g
    ensures i < |g| && g[i] == d
  {
    if g[0] == d then 0 else 1 + IndexOf(g[1..], d)
  }

  function Insert(d: nat, g: seq<nat>): seq<nat> {
    if g == [] || d <= g[0] then [d] + g else [g[0]] + Insert(d, g[1..])
  }

  /** The list in ascending order. */
  function Sorted(g: seq<nat>): (s: seq<nat>) {
    if g == [] then [] else Insert(g[0], Sorted(g[1..]))
  }

  lemma {:induction false} InsertKeeps(d: nat, g: seq<nat>)
    ensures |Insert(d, g)| == |g| + 1 && forall x :: x in Insert(d, g) <==> x == d || x in g
    ensures Ascending(g) && d !in g ==> Ascending(Insert(d, g))
  {
    if g != [] && d > g[0] {
      InsertKeeps(d, g[1..]);
      var rest := Insert(d, g[1..]);
      assert forall x :: x in g <==> x == g[0] || x in g[1..];
      assert forall x :: x in [g[0]] + rest <==> x == g[0] || x in rest;
      if Ascending(g) && d !in g {
        forall i, j | 0 <= i < j < |Insert(d, g)| ensures Insert(d, g)[i] < Insert(d, g)[j] {
          if i == 0 {
            assert rest[j - 1] in rest;
          }
        }
      }
    } else {
      assert forall x :: x in [d] + g <==> x == d || x in g;
    }
  }

  /** Sorting keeps the dimensions of a duplicate-free list and leaves an ascending list alone. */
  lemma {:induction false} SortedKeeps(g: seq<nat>)
    ensures |Sorted(g)| == |g| && forall x :: x in Sorted(g) <==> x in g
    ensures Distinct(g) ==> Ascending(Sorted(g))
    ensures Ascending(g) ==> Sorted(g) == g
  {
    if g != [] {
      SortedKeeps(g[1..]);
      InsertKeeps(g[0], Sorted(g[1..]));
      assert forall x :: x in g <==> x == g[0] || x in g[1..];
      if Distinct(g) {
        assert g[0] !in g[1..];
      }
      if Ascending(g) && |g| > 1 {
        assert g[1..][0] == g[1];
      }
    }
  }

  // ----- splitting coordinates

  /** Dimensions `g` of an array of rank `n`, and the positions `s` they take in the blocks. */
  ghost predicate Groups(g: seq<nat>, s: seq<nat>, n: nat) {
    && |s| == |g| && Distinct(g) && Distinct(s)
    && (forall i | 0 <= i < |g| :: g[i] < n) && (forall i | 0 <= i < |s| :: s[i] < n)
  }

  function CellExtents(d: seq<nat>, g: seq<nat>): (r: seq<nat>)
    ensures |r| == |d|
  {
    seq(|d|, k requires 0 <= k < |d| => if k in g then 1 else d[k])
  }

  function BlockExtents(d: seq<nat>, g: seq<nat>, s: seq<nat>): (r: seq<nat>)
    requires |s| == |g| && forall i | 0 <= i < |g| :: g[i] < |d|
    ensures |r| == |d|
  {
    seq(|d|, k requires 0 <= k < |d| => if k in s then d[g[IndexOf(s, k)]] else 1)
  }

  /** The source coordinates of a block position `l` in cell `c`. */
  function Merged(c: seq<nat>, l: seq<nat>, g: seq<nat>, s: seq<nat>): (x: seq<nat>)
    requires |c| == |l| && |s| == |g| && forall i | 0 <= i < |s| :: s[i] < |l|
    ensures |x| == |c|
  {
    seq(|c|, k requires 0 <= k < |c| => if k in g then l[s[IndexOf(g, k)]] else c[k])
  }

  function CellPart(x: seq<nat>, g: seq<nat>): (c: seq<nat>)
    ensures |c| == |x|
  {
    seq(|x|, k requires 0 <= k < |x| => if k in g then 0 else x[k])
  }

  function BlockPart(x: seq<nat>, g: seq<nat>, s: seq<nat>): (l: seq<nat>)
    requires |s| == |g| && forall i | 0 <= i < |g| :: g[i] < |x|
    ensures |l| == |x|
  {
    seq(|x|, k requires 0 <= k < |x| => if k in s then x[g[IndexOf(s, k)]] else 0)
  }

  lemma IndexOfUnique(g: seq<nat>, i: nat)
    requires Distinct(g) && i < |g|
    ensures IndexOf(g, g[i]) == i
  {
  }

  lemma PartsInside(x: seq<nat>, d: seq<nat>, g: seq<nat>, s: seq<nat>)
    requires Groups(g, s, |d|) && Inside(x, d)
    ensures Inside(CellPart(x, g), CellExtents(d, g)) && Inside(BlockPart(x, g, s), BlockExtents(d, g, s))
    ensures Merged(CellPart(x, g), BlockPart(x, g, s), g, s) == x
  {
    forall k | 0 <= k < |d|
      ensures Merged(CellPart(x, g), BlockPart(x, g, s), g, s)[k] == x[k]
    {
      if k in g {
        IndexOfUnique(s, IndexOf(g, k));
      }
    }
  }

  lemma MergedInside(c: seq<nat>, l: seq<nat>, d: seq<nat>, g: seq<nat>, s: seq<nat>)
    requires Groups(g, s, |d|) && Inside(c, CellExtents(d, g)) && Inside(l, BlockExtents(d, g, s))
    ensures Inside(Merged(c, l, g, s), d)
    ensures CellPart(Merged(c, l, g, s), g) == c && BlockPart(Merged(c, l, g, s), g, s) == l
  {
    var x := Merged(c, l, g, s);
    forall k | 0 <= k < |d| ensures x[k] < d[k] && CellPart(x, g)[k] == c[k] {
      assert c[k] < CellExtents(d, g)[k];
      if k in g {
        var i := IndexOf(g, k);
        IndexOfUnique(s, i);
        assert l[s[i]] < BlockExtents(d, g, s)[s[i]];
      }
    }
    forall k | 0 <= k < |d| ensures BlockPart(x, g, s)[k] == l[k] {
      assert l[k] < BlockExtents(d, g, s)[k];
      if k in s {
        IndexOfUnique(g, IndexOf(s, k));
      }
    }
  }

  // ----- offsets

  /** The source offset of element `b` of the block in cell `k`, computed over canonical extents. */
  function GroupedOffset(d: seq<nat>, cs: seq<nat>, bs: seq<nat>, g: seq<nat>, s: seq<nat>, k: nat, b: nat): nat
    requires |s| == |g| && forall i | 0 <= i < |s| :: s[i] < |d|
  {
    OffsetFrom(Merged(Fit(Decode(k, cs), |d|), Fit(Decode(b, bs), |d|), g, s), d)
  }

  lemma FitDecoded(n: nat, full: seq<nat>)
    requires |full| >= 2 && n < Product(Canonical(full))
    ensures n < Product(full) && Fit(Decode(n, Canonical(full)), |full|) == Decode(n, full)
  {
    var k := CanonicalSplit(full);
    DecodeSplit(n, Canonical(full), k);
  }

  /** The cell and the element that hold source offset `x`. */
  function CellNumber(d: seq<nat>, g: seq<nat>, x: nat): nat {
    Encode(CellPart(Decode(x, d), g), CellExtents(d, g))
  }

  function ElementNumber(d: seq<nat>, g: seq<nat>, s: seq<nat>, x: nat): nat
    requires |s| == |g| && forall i | 0 <= i < |g| :: g[i] < |d|
  {
    Encode(BlockPart(Decode(x, d), g, s), BlockExtents(d, g, s))
  }

  lemma OffsetFromInside(x: seq<nat>, d: seq<nat>)
    requires Inside(x, d)
    ensures OffsetFrom(x, d) == Encode(x, d) < Product(d)
  {
    EncodeBound(x, d);
    assert Fit(x, |d|) == x;
  }

  /** Each (cell, element) pair reads one source element, and that element is found in no other pair. */
  lemma PairHasOffset(d: seq<nat>, g: seq<nat>, s: seq<nat>, k: nat, b: nat)
    requires |d| >= 2 && Groups(g, s, |d|)
    requires k < Product(Canonical(CellExtents(d, g))) && b < Product(Canonical(BlockExtents(d, g, s)))
    ensures var x := GroupedOffset(d, Canonical(CellExtents(d, g)), Canonical(BlockExtents(d, g, s)), g, s, k, b);
            x < Product(d) && CellNumber(d, g, x) == k && ElementNumber(d, g, s, x) == b
  {
    var cd, bd := CellExtents(d, g), BlockExtents(d, g, s);
    FitDecoded(k, cd);
    FitDecoded(b, bd);
    EncodeDecode(k, cd);
    EncodeDecode(b, bd);
    var c, l := Decode(k, cd), Decode(b, bd);
    MergedInside(c, l, d, g, s);
    OffsetFromInside(Merged(c, l, g, s), d);
    DecodeEncode(Merged(c, l, g, s), d);
  }

  /** Each source element lands in a (cell, element) pair that reads it. */
  lemma OffsetHasPair(d: seq<nat>, g: seq<nat>, s: seq<nat>, x: nat)
    requires |d| >= 2 && Groups(g, s, |d|) && x < Product(d)
    ensures CellNumber(d, g, x) < Product(Canonical(CellExtents(d, g)))
    ensures ElementNumber(d, g, s, x) < Product(Canonical(BlockExtents(d, g, s)))
    ensures GroupedOffset(d, Canonical(CellExtents(d, g)), Canonical(BlockExtents(d, g, s)), g, s,
                          CellNumber(d, g, x), ElementNumber(d, g, s, x)) == x
  {
    EncodeDecode(x, d);
    PartsInside(Decode(x, d), d, g, s);
    PairOfParts(d, g, s, Decode(x, d));
  }

  lemma PairOfParts(d: seq<nat>, g: seq<nat>, s: seq<nat>, at: seq<nat>)
    requires |d| >= 2 && Groups(g, s, |d|) && Inside(at, d)
    ensures var cd, bd := CellExtents(d, g), BlockExtents(d, g, s);
            var k, b := Encode(CellPart(at, g), cd), Encode(BlockPart(at, g, s), bd);
            && k < Product(Canonical(cd)) && b < Product(Canonical(bd))
            && GroupedOffset(d, Canonical(cd), Canonical(bd), g, s, k, b) == Encode(at, d)
  {
    var cd, bd := CellExtents(d, g), BlockExtents(d, g, s);
    PartsInside(at, d, g, s);
    var c, l := CellPart(at, g), BlockPart(at, g, s);
    DecodedAgain(c, cd);
    DecodedAgain(l, bd);
    OffsetFromInside(at, d);
  }

  lemma DecodedAgain(c: seq<nat>, full: seq<nat>)
    requires |full| >= 2 && Inside(c, full)
    ensures Encode(c, full) < Product(Canonical(full))
    ensures Fit(Decode(Encode(c, full), Canonical(full)), |full|) == c
  {
    EncodeBound(c, full);
    CanonicalIsCanonical(full);
    FitDecoded(Encode(c, full), full);
    DecodeEncode(c, full);
  }

  // ----- the builtin

  function Highest(g: seq<nat>, n: nat): (m: nat)
    ensures m >= n && forall i | 0 <= i < |g| :: g[i] < m
  {
    if g == [] then n else
      var m := Highest(g[..|g| - 1], n);
      if g[|g| - 1] < m then m else g[|g| - 1] + 1
  }

  /** A repeated dimension, or the plan's rank, extents and block positions. */
  datatype Plan = Plan(source: seq<nat>, cells: seq<nat>, block: seq<nat>, g: seq<nat>, s: seq<nat>)

  ghost predicate IsPlan(dims: seq<nat>, g: seq<nat>, plan: Plan) {
    && plan.g == g && plan.s == Sorted(g)
    && plan.source == Extended(dims, Highest(g, |dims|)) && Groups(g, plan.s, |plan.source|)
    && plan.cells == Canonical(CellExtents(plan.source, g))
    && plan.block == Canonical(BlockExtents(plan.source, g, plan.s))
  }

  /** The zero-based dimensions, unless one is repeated. */
  method DistinctDimensions(dimensions: seq<nat>) returns (r: Option<seq<nat>>)
    requires forall i | 0 <= i < |dimensions| :: dimensions[i] > 0
    ensures r == if Distinct(ZeroBased(dimensions)) then Some(ZeroBased(dimensions)) else None
  {
    ghost var all := ZeroBased(dimensions);
    var g: seq<nat> := [];
    for i := 0 to |dimensions|
      invariant g == all[..i] && Distinct(g)
    {
      var d := dimensions[i] - 1;
      if d in g {
        var j :| 0 <= j < |g| && g[j] == d;
        assert all[j] == all[i];
        return None;
      }
      g := g + [d];
    }
    assert g == all;
    r := Some(g);
  }

  lemma SortedGroups(g: seq<nat>, n: nat)
    requires Distinct(g) && forall i | 0 <= i < |g| :: g[i] < n
    ensures Groups(g, Sorted(g), n)
  {
    SortedKeeps(g);
    var s := Sorted(g);
    forall i | 0 <= i < |s| ensures s[i] < n {
      assert s[i] in g;
    }
  }

  /** The source extents with the grouped ones set to one. */
  method MakeCellExtents(d: seq<nat>, g: seq<nat>) returns (r: seq<nat>)
    requires forall i | 0 <= i < |g| :: g[i] < |d|
    ensures r == CellExtents(d, g)
  {
    r := d;
    for i := 0 to |g|
      invariant |r| == |d|
      invariant forall k | 0 <= k < |d| :: r[k] == if k in g[..i] then 1 else d[k]
    {
      assert g[..i + 1] == g[..i] + [g[i]];
      r := r[g[i] := 1];
    }
    assert g[..|g|] == g;
  }

  /** The grouped extents at the block positions, and ones elsewhere. */
  method MakeBlockExtents(d: seq<nat>, g: seq<nat>, s: seq<nat>) returns (r: seq<nat>)
    requires Groups(g, s, |d|)
    ensures r == BlockExtents(d, g, s)
  {
    r := Ones(|d|);
    for i := 0 to |g|
      invariant |r| == |d|
      invariant forall j | 0 <= j < i :: r[s[j]] == d[g[j]]
      invariant forall k | 0 <= k < |d| && k !in s[..i] :: r[k] == 1
    {
      assert s[..i + 1] == s[..i] + [s[i]];
      r := r[s[i] := d[g[i]]];
    }
    assert s[..|g|] == s;
  }

  /** The plan of a grouping, unless a dimension is repeated. */
  method GroupingPlan(dims: seq<nat>, dimensions: seq<nat>) returns (r: Option<Plan>)
    requires IsCanonical(dims) && forall i | 0 <= i < |dimensions| :: dimensions[i] > 0
    ensures var g := ZeroBased(dimensions);
            if Distinct(g) then r.Some? && IsPlan(dims, g, r.value) else r == None
  {
    var distinct := DistinctDimensions(dimensions);
    if distinct.None? {
      return None;
    }
    var g := distinct.value;
    var source := Extended(dims, Highest(g, |dims|));
    SortedGroups(g, |source|);
    var s := Sorted(g);
    var cells := MakeCellExtents(source, g);
    var block := MakeBlockExtents(source, g, s);
    r := Some(Plan(source, Canonical(cells), Canonical(block), g, s));
  }

  ghost predicate IsValidPlan(plan: Plan) {
    && |plan.source| >= 2 && Groups(plan.g, plan.s, |plan.source|)
    && plan.cells == Canonical(CellExtents(plan.source, plan.g))
    && plan.block == Canonical(BlockExtents(plan.source, plan.g, plan.s))
  }

  function PlanOffset(plan: Plan, k: nat, b: nat): nat
    requires |plan.s| == |plan.g| && forall i | 0 <= i < |plan.s| :: plan.s[i] < |plan.source|
  {
    GroupedOffset(plan.source, plan.cells, plan.block, plan.g, plan.s, k, b)
  }

  /** The offsets that block `k` reads, by position. */
  ghost predicate Reads(plan: Plan, size: nat, k: nat, offsets: seq<nat>) {
    && IsValidPlan(plan) && size == Product(plan.source)
    && k < Product(plan.cells) && |offsets| == Product(plan.block)
    && forall b: nat | b < |offsets| :: offsets[b] == PlanOffset(plan, k, b)
  }

  /** `Reads`, to be looked into only where `Unseal` is mentioned; the loops carry it without doing so. */
  ghost predicate SealedReads(plan: Plan, size: nat, k: nat, offsets: seq<nat>) {
    forall n {:trigger Unseal(n)} :: Unseal(n) ==> Reads(plan, size, k, offsets)
  }

  /** Cell subscripts with the grouped ones overwritten by the block's. */
  method MergeSubscripts(c: seq<nat>, l: seq<nat>, g: seq<nat>, s: seq<nat>) returns (x: seq<nat>)
    requires |c| == |l| && Groups(g, s, |c|)
    ensures x == Merged(c, l, g, s)
  {
    x := c;
    for i := 0 to |g|
      invariant |x| == |c|
      invariant forall j | 0 <= j < i :: x[g[j]] == l[s[j]]
      invariant forall k | 0 <= k < |c| && k !in g[..i] :: x[k] == c[k]
    {
      assert g[..i + 1] == g[..i] + [g[i]];
      x := x[g[i] := l[s[i]]];
    }
    assert g[..|g|] == g;
  }

  method ReadGrouped<T>(source: seq<T>, plan: Plan, k: nat, b: nat, ghost offsets: seq<nat>) returns (value: T)
    requires SealedReads(plan, |source|, k, offsets) && b < |offsets|
    ensures offsets[b] < |source| && value == source[offsets[b]]
  {
    assert Unseal(0);
    PairHasOffset(plan.source, plan.g, plan.s, k, b);
    assert offsets[b] == PlanOffset(plan, k, b);
    var n := |plan.source|;
    var c := DecodeOffset(k, plan.cells);
    var l := DecodeOffset(b, plan.block);
    var x := MergeSubscripts(Fit(c, n), Fit(l, n), plan.g, plan.s);
    var offset := FindOffsetFrom(x, plan.source);
    value := source[offset];
  }

  /** The block's elements are the source's at the given offsets. */
  ghost predicate Holds<T>(source: seq<T>, offsets: seq<nat>, block: Tensor<T>) {
    && |block.data| == |offsets|
    && forall b | 0 <= b < |offsets| :: offsets[b] < |source| && block.data[b] == source[offsets[b]]
  }

  method GatherGrouped<T>(source: seq<T>, plan: Plan, k: nat, count: nat, ghost offsets: seq<nat>)
    returns (block: Tensor<T>)
    requires SealedReads(plan, |source|, k, offsets) && count == |offsets|
    ensures block.dims == plan.block && Holds(source, offsets, block)
  {
    var output := [];
    for b := 0 to count
      invariant |output| == b
      invariant forall j | 0 <= j < b :: offsets[j] < |source| && output[j] == source[offsets[j]]
    {
      var value := ReadGrouped(source, plan, k, b, offsets);
      output := output + [value];
    }
    block := Tensor(plan.block, output);
  }

  /** What each block reads: `offsets[k][b]` for element `b` of block `k`. */
  ghost predicate ReadsAll(plan: Plan, size: nat, offsets: seq<seq<nat>>) {
    && IsValidPlan(plan) && |offsets| == Product(plan.cells)
    && forall k | 0 <= k < |offsets| :: Reads(plan, size, k, offsets[k])
  }

  lemma ReadsExist(plan: Plan) returns (offsets: seq<seq<nat>>)
    requires IsValidPlan(plan)
    ensures ReadsAll(plan, Product(plan.source), offsets)
  {
    offsets := seq(Product(plan.cells), k requires 0 <= k < Product(plan.cells) =>
      seq(Product(plan.block), b requires 0 <= b < Product(plan.block) => PlanOffset(plan, k, b)));
  }

  lemma SealReads(plan: Plan, size: nat, offsets: seq<seq<nat>>)
    requires ReadsAll(plan, size, offsets)
    ensures forall k | 0 <= k < |offsets| ::
              SealedReads(plan, size, k, offsets[k]) && |offsets[k]| == Product(plan.block)
  {
  }

  /** The cell whose block `k` holds the source's elements at `offsets[k]`. */
  ghost predicate IsGroupedCell<T>(source: seq<T>, plan: Plan, offsets: seq<seq<nat>>, cell: Cell<T>) {
    && cell.dims == plan.cells && |cell.blocks| == |offsets|
    && forall k | 0 <= k < |offsets| :: cell.blocks[k].dims == plan.block && Holds(source, offsets[k], cell.blocks[k])
  }

  method GroupAll<T>(source: seq<T>, plan: Plan, cells: nat, count: nat, ghost offsets: seq<seq<nat>>)
    returns (cell: Cell<T>)
    requires cells == |offsets| && forall k | 0 <= k < |offsets| ::
               SealedReads(plan, |source|, k, offsets[k]) && |offsets[k]| == count
    ensures IsGroupedCell(source, plan, offsets, cell)
  {
    var blocks: seq<Tensor<T>> := [];
    for k := 0 to cells
      invariant |blocks| == k
      invariant forall j | 0 <= j < k :: blocks[j].dims == plan.block && Holds(source, offsets[j], blocks[j])
    {
      var block := GatherGrouped(source, plan, k, count, offsets[k]);
      blocks := blocks + [block];
    }
    cell := Cell(plan.cells, blocks);
  }

  /** `num2cell`: fails only on a repeated dimension. */
  method Num2Cell<T>(src: Tensor<T>, dimensions: seq<nat>)
    returns (r: Option<Cell<T>>, ghost plan: Plan, ghost offsets: seq<seq<nat>>)
    requires src.Valid() && forall i | 0 <= i < |dimensions| :: dimensions[i] > 0
    ensures r.Some? <==> Distinct(ZeroBased(dimensions))
    ensures r.Some? ==>
      && IsPlan(src.dims, ZeroBased(dimensions), plan) && ReadsAll(plan, |src.data|, offsets)
      && r.value.Valid() && IsGroupedCell(src.data, plan, offsets, r.value)
  {
    plan, offsets := Plan([], [], [], [], []), [];
    var made := GroupingPlan(src.dims, dimensions);
    if made.None? {
      return None, plan, offsets;
    }
    plan := made.value;
    ExtendedSize(src.dims, Highest(plan.g, |src.dims|));
    offsets := ReadsExist(plan);
    SealReads(plan, |src.data|, offsets);
    var cell := GroupAll(src.data, made.value, Product(made.value.cells), Product(made.value.block), offsets);
    CanonicalIsCanonical(CellExtents(plan.source, plan.g));
    CanonicalIsCanonical(BlockExtents(plan.source, plan.g, plan.s));
    r := Some(cell);
  }
}
