/**
 `mat2cell` and `cell2mat`: cutting an array into a cell of blocks and tiling the blocks back.
 */
module Blocks {
  import opened MixedRadix
  import opened Results
  import opened Sealing
  import opened Shapes
  import opened Tensors
  import opened Partitions

  /** A cell array whose entries are arrays. */
  datatype Cell<T> = Cell(dims: seq<nat>, blocks: seq<Tensor<T>>)
  {
    ghost predicate Valid() {
      IsCanonical(dims) && |blocks| == Product(dims) && forall k | 0 <= k < |blocks| :: blocks[k].Valid()
    }
  }

  datatype BlockError = ArgumentCount | SumMismatch | IncompatibleBlocks | OffsetOutside

  // ----- cutting

  /** The source coordinates of position `l` in a block that begins at `starts`. */
  function Shifted(starts: seq<nat>, l: seq<nat>): (x: seq<nat>)
    ensures |x| == |starts|
  {
    seq(|starts|, k requires 0 <= k < |starts| => starts[k] + if k < |l| then l[k] else 0)
  }

  /** The source offset read for element `o` of a block. */
  function GatherOffset(dims: seq<nat>, block: seq<nat>, starts: seq<nat>, o: nat): nat {
    OffsetFrom(Shifted(starts, Decode(o, block)), dims)
  }

  /** Every element of the block lies in the source. */
  ghost predicate Gathers(size: nat, dims: seq<nat>, block: seq<nat>, starts: seq<nat>) {
    forall o: nat | o < Product(block) :: GatherOffset(dims, block, starts, o) < size
  }

  method FindGatherOffset(dims: seq<nat>, block: seq<nat>, starts: seq<nat>, o: nat) returns (offset: nat)
    ensures offset == GatherOffset(dims, block, starts, o)
  {
    var local := DecodeOffset(o, block);
    offset := FindOffsetFrom(Shifted(starts, local), dims);
  }

  /** The first elements of a block; looked into only where `Unseal` is mentioned. */
  ghost predicate Gathered<T>(source: seq<T>, dims: seq<nat>, block: seq<nat>, starts: seq<nat>, output: seq<T>) {
    forall k {:trigger Unseal(k)} :: Unseal(k) ==>
      forall j: nat | j < |output| ::
        GatherOffset(dims, block, starts, j) < |source| && output[j] == source[GatherOffset(dims, block, starts, j)]
  }

  lemma GatheredNext<T>(source: seq<T>, dims: seq<nat>, block: seq<nat>, starts: seq<nat>, output: seq<T>, offset: nat)
    requires Gathered(source, dims, block, starts, output) && offset == GatherOffset(dims, block, starts, |output|) < |source|
    ensures Gathered(source, dims, block, starts, output + [source[offset]])
  {
    assert Unseal(0);
  }

  /** Reads a block element by element, failing on the first element outside the source. */
  method GatherBlock<T>(source: seq<T>, dims: seq<nat>, block: seq<nat>, starts: seq<nat>)
    returns (r: Result<Tensor<T>, BlockError>)
    requires IsCanonical(block)
    ensures r.Ok? <==> Gathers(|source|, dims, block, starts)
    ensures r.Ok? ==>
      && r.value.Valid() && r.value.dims == block
      && forall o: nat | o < Product(block) :: r.value.data[o] == source[GatherOffset(dims, block, starts, o)]
    ensures r.Err? ==> r.error == OffsetOutside
  {
    var output := [];
    for o := 0 to Product(block)
      invariant |output| == o && Gathered(source, dims, block, starts, output)
    {
      var offset := FindGatherOffset(dims, block, starts, o);
      if offset >= |source| {
        return Err(OffsetOutside);
      }
      GatheredNext(source, dims, block, starts, output, offset);
      output := output + [source[offset]];
    }
    assert Unseal(0);
    r := Ok(Tensor(block, output));
  }

  ghost predicate NoneEmpty(ps: seq<seq<nat>>) {
    forall k | 0 <= k < |ps| :: ps[k] != []
  }

  /** Cell coordinates that name a block, for as many axes as the cell kept. */
  ghost predicate NamesBlock(ps: seq<seq<nat>>, c: seq<nat>) {
    |c| <= |ps| && Inside(c, Counts(ps[..|c|]))
  }

  function CutDims(ps: seq<seq<nat>>, c: seq<nat>): seq<nat>
    requires NamesBlock(ps, c)
  {
    BlockDims(ps[..|c|], c)
  }

  function CutStarts(ps: seq<seq<nat>>, c: seq<nat>): (starts: seq<nat>)
    requires NamesBlock(ps, c)
    ensures |starts| == |c|
  {
    seq(|c|, k requires 0 <= k < |c| => Start(ps[k], c[k]))
  }

  /** Every element of the block at `c` lies in the source. */
  ghost predicate Readable<T>(src: Tensor<T>, ps: seq<seq<nat>>, c: seq<nat>) {
    NamesBlock(ps, c) && Gathers(|src.data|, src.dims, Canonical(CutDims(ps, c)), CutStarts(ps, c))
  }

  ghost predicate IsBlockOf<T>(src: Tensor<T>, ps: seq<seq<nat>>, c: seq<nat>, block: Tensor<T>) {
    && Readable(src, ps, c)
    && var d, starts := Canonical(CutDims(ps, c)), CutStarts(ps, c);
       && block.Valid() && block.dims == d
       && forall o: nat | o < Product(d) :: block.data[o] == src.data[GatherOffset(src.dims, d, starts, o)]
  }

  /** The cell that a source and its partition vectors give; `cells` lists the cell coordinates. */
  ghost predicate IsCutInto<T>(src: Tensor<T>, ps: seq<seq<nat>>, cells: seq<seq<nat>>, cell: Cell<T>) {
    && cell.dims == Canonical(Counts(ps)) && Lists(cells, cell.dims) && |cell.blocks| == |cells|
    && forall k | 0 <= k < |cells| :: IsBlockOf(src, ps, cells[k], cell.blocks[k])
  }

  /** Coordinates inside the kept cell extents name a block; the dropped axes have one block each. */
  lemma KeptCells(ps: seq<seq<nat>>, cd: seq<nat>, extra: nat, c: seq<nat>)
    requires Counts(ps) == cd + Ones(extra) && Inside(c, cd)
    ensures NamesBlock(ps, c)
  {
    var kept := Counts(ps[..|cd|]);
    assert forall i | 0 <= i < |cd| :: kept[i] == Counts(ps)[i] == cd[i];
  }

  // ----- when every element of every block is in the source

  /** Where the block at `c` reads its element `o`, along the axes that the cell kept. */
  lemma ShiftedIsPlace(ps: seq<seq<nat>>, c: seq<nat>, d: seq<nat>, extra: nat, o: nat)
    requires Inside(c, Counts(ps)) && BlockDims(ps, c) == d + Ones(extra) && o < Product(d)
    ensures NamesBlock(ps, c)
    ensures Shifted(CutStarts(ps, c), Decode(o, d)) == Place(ps, c, Decode(o, BlockDims(ps, c)))
  {
    assert ps[..|c|] == ps;
    DecodeSplit(o, d, extra);
  }

  lemma ShiftedInside(ps: seq<seq<nat>>, c: seq<nat>, o: nat)
    requires |ps| >= 2 && Inside(c, Counts(ps)) && o < Product(Canonical(BlockDims(ps, c)))
    ensures NamesBlock(ps, c) && Inside(Shifted(CutStarts(ps, c), Decode(o, Canonical(BlockDims(ps, c)))), Totals(ps))
  {
    var bd := BlockDims(ps, c);
    var extra := CanonicalSplit(bd);
    ShiftedIsPlace(ps, c, Canonical(bd), extra, o);
    EncodeDecode(o, bd);
    PartsOfPlace(ps, c, Decode(o, bd));
  }

  lemma PrefixInside(x: seq<nat>, d: seq<nat>)
    requires |x| <= |d| && Inside(x, d[..|x|]) && Positive(d)
    ensures OffsetFrom(x, d) < Product(d)
  {
    var y := Fit(x, |d|);
    forall i | 0 <= i < |d| ensures y[i] < d[i] {
      assert i < |x| ==> x[i] < d[..|x|][i];
    }
    EncodeBound(y, d);
  }

  lemma KeptTotals(ps: seq<seq<nat>>, n: nat)
    requires n <= |ps|
    ensures Totals(ps[..n]) == Totals(ps)[..n] && Counts(ps[..n]) == Counts(ps)[..n]
  {
  }

  /** In a source with elements every block is readable, also when axes were dropped from the cell. */
  lemma NonemptyReadable<T>(src: Tensor<T>, ps: seq<seq<nat>>, c: seq<nat>)
    requires src.Valid() && Totals(ps) == src.dims && NamesBlock(ps, c) && |c| >= 2 && Product(src.dims) > 0
    ensures Readable(src, ps, c)
  {
    var qs := ps[..|c|];
    KeptTotals(ps, |c|);
    ProductPositive(src.dims);
    assert qs[..|c|] == qs && CutStarts(qs, c) == CutStarts(ps, c);
    forall o: nat | o < Product(Canonical(CutDims(ps, c)))
      ensures GatherOffset(src.dims, Canonical(CutDims(ps, c)), CutStarts(ps, c), o) < |src.data|
    {
      ShiftedInside(qs, c, o);
      PrefixInside(Shifted(CutStarts(ps, c), Decode(o, Canonical(CutDims(ps, c)))), src.dims);
    }
  }

  /** When an axis that the cell kept has no positions, no block has elements. */
  lemma EmptyReadable<T>(src: Tensor<T>, ps: seq<seq<nat>>, c: seq<nat>)
    requires Totals(ps) == src.dims && NamesBlock(ps, c) && |c| >= 2 && Product(src.dims[..|c|]) == 0
    ensures Readable(src, ps, c)
  {
    var d := CutDims(ps, c);
    ProductPositive(src.dims[..|c|]);
    var a :| 0 <= a < |c| && src.dims[a] == 0;
    StartNext(ps[a], c[a]);
    StartMonotone(ps[a], c[a] + 1, |ps[a]|);
    StartEnd(ps[a]);
    assert d[a] == 0;
    ProductPositive(d);
    var extra := CanonicalSplit(d);
  }

  /** A source without elements whose blocks have some: the block at the origin cannot be read. */
  lemma OriginUnreadable<T>(src: Tensor<T>, ps: seq<seq<nat>>, cd: seq<nat>, extra: nat, cells: seq<seq<nat>>) returns (k: nat)
    requires src.Valid() && Totals(ps) == src.dims && Counts(ps) == cd + Ones(extra) && |cd| >= 2 && Lists(cells, cd)
    requires Product(src.dims) == 0 && Product(src.dims[..|cd|]) > 0
    ensures k < |cells| && !Readable(src, ps, cells[k])
  {
    var qs, origin := ps[..|cd|], Zeros(|cd|);
    KeptTotals(ps, |cd|);
    ProductPositive(src.dims[..|cd|]);
    assert Counts(qs) == cd && Inside(origin, Totals(qs));
    var c := CellOf(qs, origin);
    EncodeBound(LocalOf(qs, origin), BlockDims(qs, c));
    var more := CanonicalSplit(BlockDims(qs, c));
    EncodeBound(c, cd);
    DecodeEncode(c, cd);
    k := Encode(c, cd);
    assert cells[k] == c && CutDims(ps, c) == BlockDims(qs, c);
    assert GatherOffset(src.dims, Canonical(CutDims(ps, c)), CutStarts(ps, c), 0) >= |src.data|;
  }

  /** The source has elements, or its blocks have none along the axes that the cell keeps. */
  predicate CanCut(dims: seq<nat>, ps: seq<seq<nat>>)
    requires |dims| == |ps| >= 2
  {
    Product(dims) > 0 || (StrippedIsCanonical(Counts(ps)); Product(dims[..|Canonical(Counts(ps))|]) == 0)
  }

  lemma CutSucceeds<T>(src: Tensor<T>, ps: seq<seq<nat>>, cells: seq<seq<nat>>)
    requires src.Valid() && |ps| >= 2 && Totals(ps) == src.dims && Lists(cells, Canonical(Counts(ps)))
    ensures CanCut(src.dims, ps) <==> forall k | 0 <= k < |cells| :: Readable(src, ps, cells[k])
  {
    var cd := Canonical(Counts(ps));
    var extra := CanonicalSplit(Counts(ps));
    if CanCut(src.dims, ps) {
      forall k | 0 <= k < |cells| ensures Readable(src, ps, cells[k]) {
        EncodeDecode(k, cd);
        KeptCells(ps, cd, extra, cells[k]);
        if Product(src.dims) > 0 {
          NonemptyReadable(src, ps, cells[k]);
        } else {
          EmptyReadable(src, ps, cells[k]);
        }
      }
    } else {
      var k := OriginUnreadable(src, ps, cd, extra, cells);
    }
  }

  // ----- the cutting loops

  method CutBlock<T>(src: Tensor<T>, ps: seq<seq<nat>>, c: seq<nat>) returns (r: Result<Tensor<T>, BlockError>)
    requires NamesBlock(ps, c)
    ensures r.Ok? <==> Readable(src, ps, c)
    ensures r.Ok? ==> IsBlockOf(src, ps, c, r.value)
    ensures r.Err? ==> r.error == OffsetOutside
  {
    CanonicalIsCanonical(CutDims(ps, c));
    r := GatherBlock(src.data, src.dims, Canonical(CutDims(ps, c)), CutStarts(ps, c));
  }

  /** The coordinates of every cell in order; the loops name them by position. */
  ghost predicate Lists(cells: seq<seq<nat>>, cd: seq<nat>) {
    |cells| == Product(cd) && forall k: nat {:trigger Decode(k, cd)} | k < |cells| :: cells[k] == Decode(k, cd)
  }

  lemma ListExists(cd: seq<nat>) returns (cells: seq<seq<nat>>)
    ensures Lists(cells, cd)
    ensures forall k | 0 <= k < |cells| :: Inside(cells[k], cd)
  {
    cells := seq(Product(cd), k requires 0 <= k < Product(cd) => Decode(k, cd));
    forall k | 0 <= k < |cells| ensures Inside(cells[k], cd) {
      EncodeDecode(k, cd);
    }
  }

  method CutNumbered<T>(src: Tensor<T>, ps: seq<seq<nat>>, cd: seq<nat>, k: nat,
                        ghost extra: nat, ghost cells: seq<seq<nat>>)
    returns (r: Result<Tensor<T>, BlockError>)
    requires Counts(ps) == cd + Ones(extra) && Lists(cells, cd) && k < |cells| && Inside(cells[k], cd)
    ensures r.Ok? <==> Readable(src, ps, cells[k])
    ensures r.Ok? ==> IsBlockOf(src, ps, cells[k], r.value)
    ensures r.Err? ==> r.error == OffsetOutside
  {
    var c := DecodeOffset(k, cd);
    assert c == cells[k];
    KeptCells(ps, cd, extra, c);
    r := CutBlock(src, ps, c);
  }

  /** All blocks in cell order, up to the first that cannot be read. */
  method CutAll<T>(src: Tensor<T>, ps: seq<seq<nat>>, cd: seq<nat>, ghost extra: nat, ghost cells: seq<seq<nat>>)
    returns (r: Result<seq<Tensor<T>>, BlockError>)
    requires Counts(ps) == cd + Ones(extra) && Lists(cells, cd)
    requires forall k | 0 <= k < |cells| :: Inside(cells[k], cd)
    ensures r.Ok? <==> forall k | 0 <= k < |cells| :: Readable(src, ps, cells[k])
    ensures r.Ok? ==> |r.value| == |cells| &&
                      forall k | 0 <= k < |cells| :: IsBlockOf(src, ps, cells[k], r.value[k])
    ensures r.Err? ==> r.error == OffsetOutside
  {
    var blocks := [];
    for k := 0 to Product(cd)
      invariant |blocks| == k
      invariant forall j | 0 <= j < k :: IsBlockOf(src, ps, cells[j], blocks[j])
    {
      var block := CutNumbered(src, ps, cd, k, extra, cells);
      if block.Err? {
        assert !Readable(src, ps, cells[k]);
        return Err(block.error);
      }
      blocks := blocks + [block.value];
    }
    r := Ok(blocks);
  }

  /** Cuts an array along one partition vector per axis. */
  method CutBlocks<T>(src: Tensor<T>, ps: seq<seq<nat>>)
    returns (r: Result<Cell<T>, BlockError>, ghost cells: seq<seq<nat>>)
    requires |ps| >= 2
    ensures Lists(cells, Canonical(Counts(ps)))
    ensures r.Ok? <==> forall k | 0 <= k < |cells| :: Readable(src, ps, cells[k])
    ensures src.Valid() && Totals(ps) == src.dims ==> (r.Ok? <==> CanCut(src.dims, ps))
    ensures r.Ok? ==> r.value.Valid() && IsCutInto(src, ps, cells, r.value)
    ensures r.Err? ==> r.error == OffsetOutside
  {
    var cd := Canonical(Counts(ps));
    ghost var extra := CanonicalSplit(Counts(ps));
    cells := ListExists(cd);
    if src.Valid() && Totals(ps) == src.dims {
      CutSucceeds(src, ps, cells);
    }
    var blocks := CutAll(src, ps, cd, extra, cells);
    if blocks.Err? {
      return Err(blocks.error), cells;
    }
    r := Ok(Cell(cd, blocks.value));
  }

  // ----- tiling

  /** The rank at which a cell is tiled: that of the cell or of its highest-rank block. */
  function TileRank<T>(rank: nat, blocks: seq<Tensor<T>>): (n: nat)
    ensures n >= rank && forall k | 0 <= k < |blocks| :: n >= |blocks[k].dims|
    ensures n == rank || exists k | 0 <= k < |blocks| :: n == |blocks[k].dims|
  {
    if blocks == [] then rank else
      var m, n := TileRank(rank, blocks[..|blocks| - 1]), |blocks[|blocks| - 1].dims|;
      if m >= n then m else n
  }

  /** The blocks fit the grid cut by `ps`: each has the extents its row of intervals asks for. */
  ghost predicate FitsGrid(cd: seq<nat>, cells: seq<seq<nat>>, bd: seq<seq<nat>>, ps: seq<seq<nat>>) {
    && |ps| == |cd| && Counts(ps) == cd && |bd| == |cells|
    && forall k | 0 <= k < |bd| :: Inside(cells[k], cd) && bd[k] == BlockDims(ps, cells[k])
  }

  /** Interval lengths found so far, per axis and cell coordinate. */
  type Table = seq<seq<Option<nat>>>

  ghost predicate TableFor(table: Table, cd: seq<nat>) {
    |table| == |cd| && forall d | 0 <= d < |cd| :: |table[d]| == cd[d]
  }

  /** Every recorded length is the one `ps` has. */
  ghost predicate Agrees(table: Table, ps: seq<seq<nat>>) {
    && |table| == |ps|
    && forall d | 0 <= d < |ps| ::
         |table[d]| == |ps[d]| && forall j | 0 <= j < |ps[d]| :: table[d][j].Some? ==> table[d][j].value == ps[d][j]
  }

  /** The lengths of the block at `c` are recorded on the first `n` axes. */
  ghost predicate Records(table: Table, c: seq<nat>, block: seq<nat>, n: nat) {
    && |table| == |c| == |block| && n <= |c|
    && forall d | 0 <= d < n :: c[d] < |table[d]| && table[d][c[d]] == Some(block[d])
  }

  /** The later table keeps every recorded length. */
  ghost predicate Keeps(table: Table, later: Table) {
    && |later| == |table|
    && forall d | 0 <= d < |table| ::
         |later[d]| == |table[d]| && forall j | 0 <= j < |table[d]| :: table[d][j].Some? ==> later[d][j] == table[d][j]
  }

  /** Records the extents of one block, or finds an axis on which they contradict the table. */
  method RecordBlock(table: Table, c: seq<nat>, block: seq<nat>) returns (r: Result<Table, BlockError>)
    requires |table| == |c| == |block| && forall d | 0 <= d < |c| :: c[d] < |table[d]|
    ensures r.Ok? ==> Keeps(table, r.value) && Records(r.value, c, block, |c|)
    ensures r.Ok? ==> forall ps :: Agrees(table, ps) && (forall d | 0 <= d < |c| :: ps[d][c[d]] == block[d]) ==>
                                   Agrees(r.value, ps)
    ensures r.Err? ==> r.error == IncompatibleBlocks
    ensures r.Err? ==> exists d | 0 <= d < |c| :: table[d][c[d]].Some? && table[d][c[d]].value != block[d]
  {
    var t := table;
    for d := 0 to |c|
      invariant Keeps(table, t) && Records(t, c, block, d)
      invariant forall e | d <= e < |c| :: t[e] == table[e]
      invariant forall ps :: Agrees(table, ps) && (forall d | 0 <= d < |c| :: ps[d][c[d]] == block[d]) ==> Agrees(t, ps)
    {
      match t[d][c[d]]
      case Some(expected) =>
        if expected != block[d] {
          return Err(IncompatibleBlocks);
        }
      case None =>
        t := t[d := t[d][c[d] := Some(block[d])]];
    }
    r := Ok(t);
  }

  /** Some block sits at coordinate `j` along axis `d`. */
  lemma SomeCell(cd: seq<nat>, d: nat, j: nat) returns (k: nat)
    requires Product(cd) > 0 && d < |cd| && j < cd[d]
    ensures k < Product(cd) && Decode(k, cd)[d] == j
  {
    ProductPositive(cd);
    var c := Zeros(|cd|)[d := j];
    EncodeBound(c, cd);
    DecodeEncode(c, cd);
    k := Encode(c, cd);
  }

  /** The intervals a full table records. */
  function Lengths(table: Table): (ps: seq<seq<nat>>)
    ensures |ps| == |table| && forall d | 0 <= d < |table| :: |ps[d]| == |table[d]|
  {
    seq(|table|, d requires 0 <= d < |table| =>
      seq(|table[d]|, j requires 0 <= j < |table[d]| => if table[d][j].Some? then table[d][j].value else 0))
  }

  /** Every interval has a length. */
  predicate IsFull(table: Table) {
    forall d, j | 0 <= d < |table| && 0 <= j < |table[d]| :: table[d][j].Some?
  }

  lemma RecordedDims(table: Table, cd: seq<nat>, c: seq<nat>, block: seq<nat>)
    requires TableFor(table, cd) && Inside(c, cd) && Records(table, c, block, |cd|)
    ensures Counts(Lengths(table)) == cd && block == BlockDims(Lengths(table), c)
  {
    var ps := Lengths(table);
    assert Counts(ps) == cd;
    assert forall d | 0 <= d < |cd| :: BlockDims(ps, c)[d] == ps[d][c[d]] == block[d];
  }

  lemma KeepsRecord(table: Table, later: Table, c: seq<nat>, block: seq<nat>)
    requires Keeps(table, later) && Records(table, c, block, |c|)
    ensures Records(later, c, block, |c|)
  {
  }

  /** Finds the intervals along each axis, or that no grid fits the blocks. */
  method TilingPlan(cd: seq<nat>, bd: seq<seq<nat>>, ghost cells: seq<seq<nat>>)
    returns (r: Result<seq<seq<nat>>, BlockError>)
    requires |bd| == Product(cd) > 0 && Lists(cells, cd)
    requires forall k | 0 <= k < |bd| :: |bd[k]| == |cd| && Inside(cells[k], cd)
    ensures r.Ok? ==> FitsGrid(cd, cells, bd, r.value)
    ensures r.Err? ==> r.error == IncompatibleBlocks && forall ps :: !FitsGrid(cd, cells, bd, ps)
  {
    var table: Table := seq(|cd|, d requires 0 <= d < |cd| => seq(cd[d], _ => None));
    forall ps | FitsGrid(cd, cells, bd, ps) ensures Agrees(table, ps) {
      assert forall d | 0 <= d < |cd| :: Counts(ps)[d] == cd[d];
    }
    for k := 0 to |bd|
      invariant TableFor(table, cd)
      invariant forall j | 0 <= j < k :: Records(table, cells[j], bd[j], |cd|)
      invariant forall ps | FitsGrid(cd, cells, bd, ps) :: Agrees(table, ps)
    {
      var c := DecodeOffset(k, cd);
      assert c == cells[k];
      forall ps | FitsGrid(cd, cells, bd, ps)
        ensures forall d | 0 <= d < |c| :: c[d] < |ps[d]| && ps[d][c[d]] == bd[k][d]
      {
        assert forall d | 0 <= d < |cd| :: Counts(ps)[d] == cd[d];
        assert bd[k] == BlockDims(ps, cells[k]);
      }
      var next := RecordBlock(table, c, bd[k]);
      if next.Err? {
        return Err(IncompatibleBlocks);
      }
      forall j | 0 <= j < k ensures Records(next.value, cells[j], bd[j], |cd|) {
        KeepsRecord(table, next.value, cells[j], bd[j]);
      }
      table := next.value;
    }
    assert IsFull(table) by {
      forall d, j | 0 <= d < |table| && 0 <= j < |table[d]| ensures table[d][j].Some? {
        var k := SomeCell(cd, d, j);
        assert Records(table, cells[k], bd[k], |cd|);
      }
    }
    if !IsFull(table) {
      return Err(OffsetOutside);
    }
    assert Counts(Lengths(table)) == cd;
    forall k | 0 <= k < |bd| ensures bd[k] == BlockDims(Lengths(table), cells[k]) {
      RecordedDims(table, cd, cells[k], bd[k]);
    }
    r := Ok(Lengths(table));
  }

  // ----- where tiling puts each element

  /** The offset in the whole of element `b` of block `k`. */
  function Destination(ps: seq<seq<nat>>, c: seq<nat>, block: seq<nat>, b: nat): nat
    requires Inside(c, Counts(ps)) && |block| == |ps|
  {
    OffsetFrom(Place(ps, c, Decode(b, block)), Canonical(Totals(ps)))
  }

  /** The block that holds offset `x` of the whole, and the element of that block. */
  ghost function BlockIndex(ps: seq<seq<nat>>, x: nat): (k: nat)
    requires x < Product(Totals(ps))
    ensures k < Product(Counts(ps))
  {
    EncodeDecode(x, Totals(ps));
    var c := CellOf(ps, Decode(x, Totals(ps)));
    EncodeBound(c, Counts(ps));
    Encode(c, Counts(ps))
  }

  ghost function ElementIndex(ps: seq<seq<nat>>, x: nat): (b: nat)
    requires x < Product(Totals(ps))
  {
    EncodeDecode(x, Totals(ps));
    var at := Decode(x, Totals(ps));
    Encode(LocalOf(ps, at), BlockDims(ps, CellOf(ps, at)))
  }

  lemma ElementInBlock(ps: seq<seq<nat>>, x: nat)
    requires x < Product(Totals(ps))
    ensures var c := Decode(BlockIndex(ps, x), Counts(ps));
            Inside(c, Counts(ps)) && ElementIndex(ps, x) < Product(BlockDims(ps, c))
  {
    EncodeDecode(x, Totals(ps));
    var at := Decode(x, Totals(ps));
    DecodeEncode(CellOf(ps, at), Counts(ps));
    EncodeBound(LocalOf(ps, at), BlockDims(ps, CellOf(ps, at)));
  }

  lemma DestinationIsPlace(ps: seq<seq<nat>>, c: seq<nat>, b: nat)
    requires |ps| >= 2 && Inside(c, Counts(ps)) && b < Product(BlockDims(ps, c))
    ensures var x := Place(ps, c, Decode(b, BlockDims(ps, c)));
            && Inside(x, Totals(ps)) && Destination(ps, c, BlockDims(ps, c), b) == Encode(x, Totals(ps))
            && Encode(x, Totals(ps)) < Product(Totals(ps))
  {
    EncodeDecode(b, BlockDims(ps, c));
    var l := Decode(b, BlockDims(ps, c));
    PartsOfPlace(ps, c, l);
    var extra := CanonicalSplit(Totals(ps));
    OffsetFromExtended(Place(ps, c, l), Canonical(Totals(ps)), extra);
    EncodeBound(Place(ps, c, l), Totals(ps));
  }

  /** Each element lands where `BlockIndex` and `ElementIndex` look for it. */
  lemma IndexOfDestination(ps: seq<seq<nat>>, k: nat, b: nat)
    requires |ps| >= 2 && k < Product(Counts(ps))
    requires var c := Decode(k, Counts(ps)); Inside(c, Counts(ps)) && b < Product(BlockDims(ps, c))
    ensures var c := Decode(k, Counts(ps));
            var x := Destination(ps, c, BlockDims(ps, c), b);
            x < Product(Totals(ps)) && BlockIndex(ps, x) == k && ElementIndex(ps, x) == b
  {
    EncodeDecode(k, Counts(ps));
    var c := Decode(k, Counts(ps));
    var block := BlockDims(ps, c);
    EncodeDecode(b, block);
    DestinationIsPlace(ps, c, b);
    PartsOfPlace(ps, c, Decode(b, block));
    DecodeEncode(Place(ps, c, Decode(b, block)), Totals(ps));
  }

  /** And no other offset is looked up there. */
  lemma DestinationOfIndex(ps: seq<seq<nat>>, x: nat)
    requires |ps| >= 2 && x < Product(Totals(ps))
    ensures var c := Decode(BlockIndex(ps, x), Counts(ps));
            Inside(c, Counts(ps)) && Destination(ps, c, BlockDims(ps, c), ElementIndex(ps, x)) == x
  {
    EncodeDecode(x, Totals(ps));
    var at := Decode(x, Totals(ps));
    var c, l := CellOf(ps, at), LocalOf(ps, at);
    DecodeEncode(c, Counts(ps));
    DecodeEncode(l, BlockDims(ps, c));
    ElementInBlock(ps, x);
    DestinationIsPlace(ps, c, ElementIndex(ps, x));
    PlaceOfParts(ps, at);
  }
}
