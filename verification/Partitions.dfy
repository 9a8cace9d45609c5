/**
 Cutting an axis into consecutive intervals, and an array into the grid of blocks this makes.

 `Place` puts a position inside a block at its position in the whole; `CellOf` and `LocalOf` take it
 back.  They are inverse to each other, so blocks neither overlap nor leave gaps, whatever the number,
 order or emptiness of the intervals.
 */
module Partitions {
  import opened MixedRadix

  // ----- one axis

  function Sum(p: seq<nat>): nat {
    if p == [] then 0 else Sum(p[..|p| - 1]) + p[|p| - 1]
  }

  /** Where interval `j` begins. */
  function Start(p: seq<nat>, j: nat): nat
    requires j <= |p|
  {
    Sum(p[..j])
  }

  lemma StartNext(p: seq<nat>, j: nat)
    requires j < |p|
    ensures Start(p, j + 1) == Start(p, j) + p[j]
  {
    assert p[..j + 1][..j] == p[..j];
  }

  lemma StartEnd(p: seq<nat>)
    ensures Start(p, |p|) == Sum(p) && Start(p, 0) == 0
  {
    assert p[..|p|] == p;
  }

  lemma {:induction false} StartMonotone(p: seq<nat>, j: nat, k: nat)
    requires j <= k <= |p|
    ensures Start(p, j) <= Start(p, k)
    decreases k - j
  {
    if j < k {
      StartMonotone(p, j, k - 1);
      StartNext(p, k - 1);
    }
  }

  /** The interval that holds coordinate `x`. */
  function Locate(p: seq<nat>, x: nat): (j: nat)
    requires x < Sum(p)
    ensures j < |p| && Start(p, j) <= x < Start(p, j) + p[j]
    decreases |p|
  {
    var n := |p| - 1;
    if x >= Sum(p[..n]) then n else
      var j := Locate(p[..n], x);
      assert p[..n][..j] == p[..j];
      j
  }

  /** No coordinate is in two intervals. */
  lemma LocateUnique(p: seq<nat>, j: nat, x: nat)
    requires j < |p| && Start(p, j) <= x < Start(p, j) + p[j]
    ensures x < Sum(p) && Locate(p, x) == j
  {
    StartNext(p, j);
    StartEnd(p);
    StartMonotone(p, j + 1, |p|);
    var k := Locate(p, x);
    StartNext(p, k);
    if j < k {
      StartMonotone(p, j + 1, k);
    } else if k < j {
      StartMonotone(p, k + 1, j);
    }
  }

  // ----- all axes

  /** How many intervals each axis has. */
  function Counts(ps: seq<seq<nat>>): (d: seq<nat>)
    ensures |d| == |ps|
  {
    seq(|ps|, k requires 0 <= k < |ps| => |ps[k]|)
  }

  /** The extents of the whole. */
  function Totals(ps: seq<seq<nat>>): (d: seq<nat>)
    ensures |d| == |ps|
  {
    seq(|ps|, k requires 0 <= k < |ps| => Sum(ps[k]))
  }

  /** The extents of the block at cell `c`. */
  function BlockDims(ps: seq<seq<nat>>, c: seq<nat>): (d: seq<nat>)
    requires Inside(c, Counts(ps))
    ensures |d| == |ps|
  {
    seq(|ps|, k requires 0 <= k < |ps| => ps[k][c[k]])
  }

  /** The position in the whole of position `l` in the block at cell `c`. */
  function Place(ps: seq<seq<nat>>, c: seq<nat>, l: seq<nat>): (x: seq<nat>)
    requires Inside(c, Counts(ps)) && |l| == |ps|
    ensures |x| == |ps|
  {
    seq(|ps|, k requires 0 <= k < |ps| => Start(ps[k], c[k]) + l[k])
  }

  function CellOf(ps: seq<seq<nat>>, x: seq<nat>): (c: seq<nat>)
    requires Inside(x, Totals(ps))
    ensures Inside(c, Counts(ps))
  {
    seq(|ps|, k requires 0 <= k < |ps| => Locate(ps[k], x[k]))
  }

  function LocalOf(ps: seq<seq<nat>>, x: seq<nat>): (l: seq<nat>)
    requires Inside(x, Totals(ps))
    ensures Inside(l, BlockDims(ps, CellOf(ps, x)))
  {
    seq(|ps|, k requires 0 <= k < |ps| => x[k] - Start(ps[k], Locate(ps[k], x[k])))
  }

  lemma PlaceOfParts(ps: seq<seq<nat>>, x: seq<nat>)
    requires Inside(x, Totals(ps))
    ensures Place(ps, CellOf(ps, x), LocalOf(ps, x)) == x
  {
  }

  /** Blocks tile the whole: each position in each block has its own place, found by `CellOf` and `LocalOf`. */
  lemma PartsOfPlace(ps: seq<seq<nat>>, c: seq<nat>, l: seq<nat>)
    requires Inside(c, Counts(ps)) && Inside(l, BlockDims(ps, c))
    ensures Inside(Place(ps, c, l), Totals(ps))
    ensures CellOf(ps, Place(ps, c, l)) == c && LocalOf(ps, Place(ps, c, l)) == l
  {
    var x := Place(ps, c, l);
    forall k | 0 <= k < |ps|
      ensures x[k] < Sum(ps[k]) && Locate(ps[k], x[k]) == c[k]
    {
      assert l[k] < BlockDims(ps, c)[k];
      LocateUnique(ps[k], c[k], x[k]);
    }
  }
}
