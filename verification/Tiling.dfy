/**
 `cell2mat`: tiling the blocks of a cell into one array.
 */
module Tiling {
  import opened MixedRadix
  import opened Results
  import opened Shapes
  import opened Tensors
  import opened Partitions
  import opened Blocks

  /** Which element of which block each offset of the whole takes. */
  datatype Source = Source(block: nat, element: nat)

  /** The destination of an element is the one offset that takes it; `dest` gives destinations by position. */
  ghost predicate Indexes(from: seq<Source>, dest: seq<seq<nat>>) {
    && (forall k, b | 0 <= k < |dest| && 0 <= b < |dest[k]| ::
          dest[k][b] < |from| && from[dest[k][b]] == Source(k, b))
    && (forall x | 0 <= x < |from| ::
          && from[x].block < |dest| && from[x].element < |dest[from[x].block]|
          && dest[from[x].block][from[x].element] == x)
  }

  /** `dest` lists the destinations that the loops compute. */
  ghost predicate Destinations(ps: seq<seq<nat>>, cells: seq<seq<nat>>, bd: seq<seq<nat>>, dest: seq<seq<nat>>) {
    && |dest| == |cells| == |bd|
    && forall k | 0 <= k < |cells| ::
         && Inside(cells[k], Counts(ps)) && |bd[k]| == |ps| && |dest[k]| == Product(bd[k])
         && forall b: nat {:trigger Destination(ps, cells[k], bd[k], b)} | b < |dest[k]| ::
              dest[k][b] == Destination(ps, cells[k], bd[k], b)
  }

  method FindDestination(ps: seq<seq<nat>>, c: seq<nat>, block: seq<nat>, b: nat) returns (at: nat)
    requires Inside(c, Counts(ps)) && |block| == |ps|
    ensures at == Destination(ps, c, block, b)
  {
    var local := DecodeOffset(b, block);
    at := FindOffsetFrom(Place(ps, c, local), Canonical(Totals(ps)));
  }

  /** Copies one block to its places. */
  method TileBlock<T>(out: array<T>, values: seq<T>, ps: seq<seq<nat>>, c: seq<nat>, block: seq<nat>,
                      ghost k: nat, ghost from: seq<Source>, ghost dest: seq<seq<nat>>)
    requires Inside(c, Counts(ps)) && |block| == |ps|
    requires Indexes(from, dest) && k < |dest| && |dest[k]| == |values| && |from| == out.Length
    requires forall b: nat {:trigger Destination(ps, c, block, b)} | b < |values| ::
               dest[k][b] == Destination(ps, c, block, b)
    modifies out
    ensures forall x | 0 <= x < |from| ::
              out[x] == if from[x].block == k then values[from[x].element] else old(out[x])
  {
    for b := 0 to |values|
      invariant forall x | 0 <= x < |from| ::
                  out[x] == if from[x].block == k && from[x].element < b then values[from[x].element] else old(out[x])
    {
      var at := FindDestination(ps, c, block, b);
      assert at == dest[k][b];
      out[at] := values[b];
    }
  }

  /** Copies every block; the filler is overwritten everywhere. */
  method TileBlocks<T>(values: seq<seq<T>>, cd: seq<nat>, bd: seq<seq<nat>>, ps: seq<seq<nat>>, filler: T,
                       ghost cells: seq<seq<nat>>, ghost from: seq<Source>, ghost dest: seq<seq<nat>>)
    returns (out: seq<T>)
    requires Lists(cells, cd) && Destinations(ps, cells, bd, dest) && Indexes(from, dest)
    requires |values| == |dest| && forall k | 0 <= k < |dest| :: |values[k]| == |dest[k]|
    requires |from| == Product(Canonical(Totals(ps)))
    ensures |out| == |from| && forall x | 0 <= x < |from| :: out[x] == values[from[x].block][from[x].element]
  {
    var buffer := new T[Product(Canonical(Totals(ps)))](_ => filler);
    for k := 0 to |values|
      invariant forall x | 0 <= x < |from| ::
                  from[x].block < k ==> buffer[x] == values[from[x].block][from[x].element]
    {
      var c := DecodeOffset(k, cd);
      assert c == cells[k];
      TileBlock(buffer, values[k], ps, c, bd[k], k, from, dest);
    }
    out := buffer[..];
  }

  ghost function SourceAt(ps: seq<seq<nat>>, x: nat): Source
    requires x < Product(Totals(ps))
  {
    Source(BlockIndex(ps, x), ElementIndex(ps, x))
  }

  lemma SourceOfDestination(ps: seq<seq<nat>>, cells: seq<seq<nat>>, bd: seq<seq<nat>>, k: nat, b: nat)
    requires |ps| >= 2 && Lists(cells, Counts(ps)) && FitsGrid(Counts(ps), cells, bd, ps)
    requires k < |cells| && b < Product(bd[k])
    ensures var x := Destination(ps, cells[k], bd[k], b);
            x < Product(Totals(ps)) && SourceAt(ps, x) == Source(k, b)
  {
    assert cells[k] == Decode(k, Counts(ps));
    IndexOfDestination(ps, k, b);
  }

  lemma DestinationOfSource(ps: seq<seq<nat>>, cells: seq<seq<nat>>, bd: seq<seq<nat>>, x: nat)
    requires |ps| >= 2 && Lists(cells, Counts(ps)) && FitsGrid(Counts(ps), cells, bd, ps)
    requires x < Product(Totals(ps))
    ensures var s := SourceAt(ps, x);
            && s.block < |cells| && s.element < Product(bd[s.block])
            && Destination(ps, cells[s.block], bd[s.block], s.element) == x
  {
    var k := BlockIndex(ps, x);
    assert cells[k] == Decode(k, Counts(ps));
    ElementInBlock(ps, x);
    DestinationOfIndex(ps, x);
  }

  lemma DestinationsExist(ps: seq<seq<nat>>, cells: seq<seq<nat>>, bd: seq<seq<nat>>) returns (dest: seq<seq<nat>>)
    requires |cells| == |bd| && forall k | 0 <= k < |cells| :: Inside(cells[k], Counts(ps)) && |bd[k]| == |ps|
    ensures Destinations(ps, cells, bd, dest)
    ensures forall k, b: nat | 0 <= k < |dest| && b < |dest[k]| :: dest[k][b] == Destination(ps, cells[k], bd[k], b)
  {
    dest := seq(|cells|, k requires 0 <= k < |cells| =>
                seq(Product(bd[k]), b requires 0 <= b < Product(bd[k]) => Destination(ps, cells[k], bd[k], b)));
  }

  /** The bookkeeping of a grid: where each offset comes from and where each element goes. */
  lemma IndexingExists(ps: seq<seq<nat>>, cells: seq<seq<nat>>, bd: seq<seq<nat>>)
    returns (from: seq<Source>, dest: seq<seq<nat>>)
    requires |ps| >= 2 && Lists(cells, Counts(ps)) && FitsGrid(Counts(ps), cells, bd, ps)
    ensures Destinations(ps, cells, bd, dest) && Indexes(from, dest) && |from| == Product(Totals(ps))
    ensures forall x: nat | x < |from| :: from[x] == SourceAt(ps, x)
  {
    from := SourcesExist(ps);
    dest := DestinationsExist(ps, cells, bd);
    forall k, b | 0 <= k < |dest| && 0 <= b < |dest[k]|
      ensures dest[k][b] < |from| && from[dest[k][b]] == Source(k, b)
    {
      SourceOfDestination(ps, cells, bd, k, b);
    }
    forall x | 0 <= x < |from|
      ensures from[x].block < |dest| && from[x].element < |dest[from[x].block]|
      ensures dest[from[x].block][from[x].element] == x
    {
      DestinationOfSource(ps, cells, bd, x);
    }
  }

  lemma SourcesExist(ps: seq<seq<nat>>) returns (from: seq<Source>)
    ensures |from| == Product(Totals(ps)) && forall x: nat | x < |from| :: from[x] == SourceAt(ps, x)
  {
    from := seq(Product(Totals(ps)), x requires 0 <= x < Product(Totals(ps)) => SourceAt(ps, x));
  }

  /** The whole that a grid of blocks makes. */
  ghost predicate IsTiling<T>(blocks: seq<Tensor<T>>, ps: seq<seq<nat>>, whole: Tensor<T>) {
    && whole.Valid() && whole.dims == Canonical(Totals(ps)) && Product(whole.dims) == Product(Totals(ps))
    && forall x: nat | x < Product(Totals(ps)) ::
         var k, b := BlockIndex(ps, x), ElementIndex(ps, x);
         k < |blocks| && b < |blocks[k].data| && whole.data[x] == blocks[k].data[b]
  }

  function ExtendedDims<T>(blocks: seq<Tensor<T>>, n: nat): (bd: seq<seq<nat>>)
    ensures |bd| == |blocks|
  {
    seq(|blocks|, k requires 0 <= k < |blocks| => Extended(blocks[k].dims, n))
  }

  function Values<T>(blocks: seq<Tensor<T>>): (v: seq<seq<T>>)
    ensures |v| == |blocks|
  {
    seq(|blocks|, k requires 0 <= k < |blocks| => blocks[k].data)
  }

  /** A grid that the blocks of a cell fit. */
  ghost predicate FitsCell<T>(cell: Cell<T>, cells: seq<seq<nat>>, ps: seq<seq<nat>>) {
    var n := TileRank(|cell.dims|, cell.blocks);
    FitsGrid(Extended(cell.dims, n), cells, ExtendedDims(cell.blocks, n), ps)
  }

  ghost predicate ListsCell<T>(cell: Cell<T>, cells: seq<seq<nat>>) {
    var n := TileRank(|cell.dims|, cell.blocks);
    Lists(cells, Extended(cell.dims, n)) && forall k | 0 <= k < |cells| :: Inside(cells[k], Extended(cell.dims, n))
  }

  lemma BlockSizes<T>(blocks: seq<Tensor<T>>, n: nat)
    requires forall k | 0 <= k < |blocks| :: blocks[k].Valid() && n >= |blocks[k].dims|
    ensures forall k | 0 <= k < |blocks| ::
              |ExtendedDims(blocks, n)[k]| == n && |Values(blocks)[k]| == Product(ExtendedDims(blocks, n)[k])
  {
    forall k | 0 <= k < |blocks|
      ensures |ExtendedDims(blocks, n)[k]| == n && |Values(blocks)[k]| == Product(ExtendedDims(blocks, n)[k])
    {
      ExtendedSize(blocks[k].dims, n);
    }
  }

  /**
   `cell2mat`: an empty cell gives the empty array; otherwise the blocks are tiled if some grid fits
   them, and refused if none does.
   */
  method Cell2Mat<T>(cell: Cell<T>, filler: T)
    returns (r: Result<Tensor<T>, BlockError>, ghost cells: seq<seq<nat>>, ghost ps: seq<seq<nat>>)
    requires cell.Valid()
    ensures cell.blocks == [] ==> r == Ok(Nothing())
    ensures cell.blocks != [] ==> ListsCell(cell, cells)
    ensures cell.blocks != [] && r.Ok? ==> FitsCell(cell, cells, ps) && IsTiling(cell.blocks, ps, r.value)
    ensures cell.blocks != [] && r.Err? ==> r.error == IncompatibleBlocks && forall qs :: !FitsCell(cell, cells, qs)
  {
    cells, ps := [], [];
    if |cell.blocks| == 0 {
      return Ok(Nothing()), cells, ps;
    }
    var n := TileRank(|cell.dims|, cell.blocks);
    var cd, bd := Extended(cell.dims, n), ExtendedDims(cell.blocks, n);
    ExtendedSize(cell.dims, n);
    BlockSizes(cell.blocks, n);
    cells := ListExists(cd);
    var plan := TilingPlan(cd, bd, cells);
    if plan.Err? {
      return Err(plan.error), cells, ps;
    }
    ps := plan.value;
    CanonicalIsCanonical(Totals(ps));
    var whole := TileAll(cell.blocks, cd, bd, plan.value, filler, cells);
    r := Ok(whole);
  }

  method TileAll<T>(blocks: seq<Tensor<T>>, cd: seq<nat>, bd: seq<seq<nat>>, ps: seq<seq<nat>>, filler: T,
                    ghost cells: seq<seq<nat>>) returns (whole: Tensor<T>)
    requires |ps| >= 2 && Lists(cells, cd) && FitsGrid(cd, cells, bd, ps) && |blocks| == |bd|
    requires forall k | 0 <= k < |blocks| :: |blocks[k].data| == Product(bd[k])
    ensures IsTiling(blocks, ps, whole)
  {
    CanonicalIsCanonical(Totals(ps));
    ghost var from, dest := IndexingExists(ps, cells, bd);
    var data := TileBlocks(Values(blocks), cd, bd, ps, filler, cells, from, dest);
    whole := Tensor(Canonical(Totals(ps)), data);
    forall x: nat | x < |from|
      ensures var k, b := BlockIndex(ps, x), ElementIndex(ps, x);
              k < |blocks| && b < |blocks[k].data| && data[x] == blocks[k].data[b]
    {
      assert from[x] == SourceAt(ps, x);
      assert data[x] == Values(blocks)[from[x].block][from[x].element];
    }
  }
}
