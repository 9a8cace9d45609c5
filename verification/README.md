# A verified model of the OpenMat array kernels

OpenMat stores N-dimensional arrays column by column and builds its array functions from small
index-mapping kernels.  This project models the kernels with the most state, branching and index
arithmetic, and proves what they are for: that they undo, refine or specialise one another, that the
branches reporting an internal mapping error cannot be reached, and, for the isosurface extractor,
that the mesh it builds is a closed surface and exactly when it is consistently oriented.

All statements are for arrays of every rank, extent and content unless a line under "Left out" says
otherwise.  `dafny verify dfyconfig.toml` checks the whole project.

## How it is organised

- `MixedRadix`, `Lines`, `Partitions`, `Tensors`, `Coordinates`: column-major encoding and decoding,
  lines along an axis, an axis cut into intervals, array values and coordinates along all axes.
- `Tetrahedra`, `Isosurface`, `Surfaces`, `ClosedSurface`, `IsoMesh`, `IsoExtraction`, `ClosedMesh`:
  marching tetrahedra, from the tables to the closed mesh.
- `Determinants`, `Winding`, `DirectedCuts`, `OrientedSurface`, `IndexGrid`, `FoldedGrid`: how its triangles
  are wound, and when triangles that share a side run along it in opposite directions.
- `LevelFaces`, `FacesOfField`: where its vertices lie and which way its faces are wound, in terms of the field alone.
- `Shapes`, `DenseArrays`: shapes with their 64-bit checks, and copy-on-write storage with shared
  buffers and owner counts.
- `Blocks`, `Tiling`, `BlockRoundTrip`, `Grouping`, `GroupRoundTrip`, `Regrouping`: `mat2cell`, `cell2mat`,
  `num2cell`; `Cutting`, `TiledBlocks`, `GroupedElements`: the same three as a caller sees them, by coordinates.
- `Extrema`, `Windows`, `MovingExtrema`, `CumulativeExtrema`: moving and cumulative extrema; `OutputLines`: the
  lines of an array and of one with another extent along the axis.
- `AxisTransform`, `ConjugateSymmetry`, `Resizing`: what surrounds the Fourier transform of one axis.
- `Fibres`, `InverseReality`, `TransformSteps`, `FourierTransform`: transforms over several axes and the three ways
  of treating an inverse one; `WeightedSums`, `FourierRoundTrip`: when forward and inverse restore the array.
- `Rearranging`, `Permuting`, `Rotation`: `flip`, `circshift`, `fftshift`, `ifftshift`, `ipermute`, `rot90`.
- `RadixDigits`, `RadixText`, `RadixUnits`, `RadixReading`, `RadixMatrix`: `dec2hex`, `dec2bin`, `hex2dec`, `bin2dec`.
- `Joining`, `Concatenation`, `Nesting`: `cat`, `horzcat`, `vertcat`.
- `Broadcasting`: implicit expansion, in its two implementations.
- `Differences`: `diff`.
- `Results`, `ComplexNumbers`, `Doubles`, `Sealing`: small shared definitions.

Loops of the original are loops here, on arrays where it writes in place.  A nest of loops is split
into one method per level.  Iterator chains that compute a value from another, such as a maximum, a
sorted copy or a list collected element by element, are functions.  Ghost parameters named `expected` hold the array that a loop is to
produce; they are built from the specification and compared with what is emitted.

## What turned out false, and exactly when it holds

- `cell2mat` does not always undo `mat2cell`.  Block lookup runs over the cell's extents after trailing
  singletons are dropped, so an array of rank three or more whose last axis is not cut does not come
  back; and an axis without positions may be cut into no blocks at all, which leaves an empty cell and so
  the 0-by-0 array.  `BlockRoundTrip.CutAndTile` states the condition for every partition in both
  directions; `BlockRoundTrip.UncutPages` and `BlockRoundTrip.RowsIntoNone` are inputs.
- For the same reason the internal offset error of `mat2cell` can be reached: on an array without
  elements, when the axes that the cell keeps have some.  `Cutting.Mat2Cell` states the condition in both
  directions and `Cutting.UncutEmptyPages` gives an input.
- With one partition vector `mat2cell` cuts rows of the first page only, for the same reason: the blocks reach over
  all of the other axes if and only if the array has rank two (`Cutting.RowsOfMatrix`, in both directions, and
  `Cutting.FirstPageOnly`, an input).
- `cell2mat` undoes `num2cell` on ascending lists unless the cell is empty, since an empty cell becomes the
  0-by-0 array whatever the source was, and on other lists it permutes the array: `Regrouping.GroupAndTile`
  gives the result for every list, in both directions for ascending ones, and `Regrouping.NoRows` and
  `Regrouping.DescendingTransposes` are inputs.
- Concatenating the results of inner calls is not always concatenating all their arguments at once: an inner
  call without arguments gives a 0-by-0 array, which need not fit and, past the second axis, takes up a
  position.  `Nesting.ConcatenateGroups` states in both directions when they agree;
  `Nesting.NothingAndNumber` and `Nesting.NothingTwice` are inputs.
- The `symmetric` option of an inverse transform over several axes changes the transform of data that are
  conjugate-symmetric, and pass the test for it, over all axes together: it enforces symmetry along one axis
  at a time.  It leaves the transform alone if and only if the data are symmetric along the first axis alone
  and along the first together with each other one: `FourierTransform.TransformThreeWays`, in both
  directions, and `FourierTransform.SymmetricDiffers`, an input.
- A target coordinate that is inside along the axes tested need not hit a source element when the source has
  none: `Resizing.InsideHits`, in both directions, and `Resizing.EmptySourceMisses`, an input.  The resized
  array holds zero there all the same.
- The pads and samples of a moving window add up to its length except when the window's right end passes
  the largest host index, where the code cuts it: `Windows.WindowGeometry`, in both directions, and
  `Windows.PadTooLong`, an input.
- Resizing through a middle shape loses elements when the middle is too small for what both ends have:
  `Resizing.ResizeComposes` and `Resizing.ResizeLoses` are the two directions, and the second builds an
  input for every such shape.
- Numbers are not read back from text when the minimum width or a number asks for more than 16 hexadecimal
  or 64 binary digits: `RadixMatrix.TextRoundTrip`, in both directions, and `RadixMatrix.TooWide`, an input.
- Faces that share a side need not run along it in opposite directions when explicit coordinates fold the
  grid over or flatten it: `OrientedSurface.OppositeIffLeans`, in both directions for any two triangles,
  flat tetrahedra included, `ClosedMesh.ExtractClosedMesh`, in both directions for the whole mesh, and
  `FoldedGrid.FoldedRunsAlike`, an input.  Index coordinates never do that (`IndexGrid.IndicesUnfolded`).

## Model

| member | source | states |
|---|---|---|
| `Tetrahedra.TableMatchesContains` | crates/openmat-builtins/src/core_isosurface.rs:10-27 | The corner and tetrahedron tables cut every cube into six tetrahedra with four different corners, which are exactly the points an arithmetic rule on coordinates puts in them. |
| `Tetrahedra.FaceHasTwoSides` | crates/openmat-builtins/src/core_isosurface.rs:10-27 | Three corners of a tetrahedron lie in exactly one other tetrahedron of the infinite grid: the tables conform across neighbouring cubes. |
| `Tetrahedra.BoundaryFaces` | crates/openmat-builtins/src/core_isosurface.rs:10-27 | That neighbour is inside the volume if and only if the face is not on one of its six outer planes. |
| `Isosurface.InterpolatedIsIsoPoint` | crates/openmat-builtins/src/core_isosurface.rs:278-300 | On a sign-crossing edge the zero-denominator branch is never taken and the clamp changes nothing, and either endpoint order gives the same point, the one at which linear interpolation along the edge meets the iso-value. |
| `Isosurface.CutSides` | crates/openmat-builtins/src/core_isosurface.rs:219-265 | For every split of four corners, how often each pair of crossing edges is a side of the emitted triangles: once on a face of the tetrahedron, twice on the inner diagonal, never otherwise. |
| `Isosurface.Oriented` | crates/openmat-builtins/src/core_isosurface.rs:303-316 | Winding a triangle along the outward vector keeps its sides and never leaves the normal pointing inward. |
| `Surfaces.PatchIsCut` | crates/openmat-builtins/src/core_isosurface.rs:195-267 | Winding its triangles outward leaves a tetrahedron with exactly the sides of the cut of its inside and outside corners. |
| `ClosedSurface.SurfaceIsClosed` | crates/openmat-builtins/src/core_isosurface.rs:133-267 | For every volume of any size, each side of each triangle lies in exactly two triangles, or in exactly one when it lies on the outer boundary. |
| `ClosedSurface.MeshIsClosed` | crates/openmat-builtins/src/core_isosurface.rs:133-301 | The same by vertex numbers, for any cache that numbers the edges bijectively. |
| `IsoMeshes.IsoMesh.EdgeVertex` | crates/openmat-builtins/src/core_isosurface.rs:269-301 | Returns the cached vertex or adds the iso-point of the edge; the cache stays a bijection onto the vertex numbers, grows by at most this edge and keeps every entry. |
| `IsoMeshes.IsoMesh.PushOrientedTriangle` | crates/openmat-builtins/src/core_isosurface.rs:303-316 | Appends the triangle wound along the outward vector, as a face if and only if its area is not negligible; vertices and cache are untouched. |
| `IsoExtraction.SplitCorners` | crates/openmat-builtins/src/core_isosurface.rs:203-211 | Partitions the corners into those below the iso-value and the others, in order. |
| `IsoExtraction.MeanPoint` | crates/openmat-builtins/src/core_isosurface.rs:318-332 | The average of the corner positions. |
| `IsoExtraction.PolygonizeTetrahedron` | crates/openmat-builtins/src/core_isosurface.rs:195-267 | Adds exactly the triangles of the cut of one tetrahedron and exactly its crossing edges to the cache. |
| `IsoExtraction.PolygonizeCube` | crates/openmat-builtins/src/core_isosurface.rs:148-188 | One cube advances the mesh by its six tetrahedra and nothing else. |
| `IsoExtraction.ExtractIsosurface` | crates/openmat-builtins/src/core_isosurface.rs:133-193 | The triple loop produces the triangles of the whole volume in order, and caches an edge if and only if it belongs to a tetrahedron of the volume and crosses the iso-value. |
| `ClosedMesh.ExtractClosedMesh` | crates/openmat-builtins/src/core_isosurface.rs:133-316 | The finished mesh: its cache numbers exactly the crossing edges, bijectively onto 0..vertices; every vertex is on its grid edge where the field, linear along the edge, meets the iso-value; every face joins edges of one tetrahedron, has an area that is not negligible and is wound so that the field does not fall along its normal; every visible triangle is kept and every crossing edge of the volume is used; its faces are, in order, the triangles of the surface whose area is not negligible; the surface is closed; no two vertices are joined by more than two faces; and no two faces run along a side in the same direction if and only if, wherever kept triangles meet across a face, the tetrahedra lean opposite ways, as they do with index coordinates and whenever explicit ones do not fold the grid over. |
| `FacesOfField.IsoPointMeetsIso` | crates/openmat-builtins/src/core_isosurface.rs:287-296 | The iso-point of a crossing edge lies on the edge, a fraction in [0, 1] along it at which the values interpolated between its ends are the iso-value. |
| `LevelFaces.PatchLiesLevel` | crates/openmat-builtins/src/core_isosurface.rs:195-316 | For every tetrahedron, non-degenerate or not, the normal of each of its wound triangles points the way the field rises between the corners, or nowhere. |
| `FacesOfField.SurfaceUses` | crates/openmat-builtins/src/core_isosurface.rs:133-267 | Every crossing edge of the volume is a vertex of some triangle of the surface. |
| `Tetrahedra.ReflectedCorner` | crates/openmat-builtins/src/core_isosurface.rs:10-27 | The corner on the far side of a face is the near one reflected in the middle of an edge of the face, across cubes too. |
| `Winding.InsideCorner` | crates/openmat-builtins/src/core_isosurface.rs:215-233 | With one corner inside, whether the visible triangle is turned around is decided by the sign of the volume its corners span, whatever the field values. |
| `Winding.OutsideCorner` | crates/openmat-builtins/src/core_isosurface.rs:215-247 | With one corner outside, by the opposite sign; when the corner is exactly at the iso-value the triangle is not visible. |
| `Winding.InsideEdge` | crates/openmat-builtins/src/core_isosurface.rs:215-263 | With two corners inside, both triangles are turned around or neither. |
| `DirectedCuts.CutLeans` | crates/openmat-builtins/src/core_isosurface.rs:219-265 | For every split of four corners, the direction in which a triangle runs along a face is the way the corners of the face turn with the fourth. |
| `DirectedCuts.CutOnce` | crates/openmat-builtins/src/core_isosurface.rs:248-263 | The two triangles of a quadrilateral have the diagonal in common and no other side, and run along it in opposite directions. |
| `OrientedSurface.OppositeIffLeans` | crates/openmat-builtins/src/core_isosurface.rs:195-316 | Two kept triangles on the two sides of a face run along their common side in opposite directions if and only if the tetrahedra lean opposite ways there: by the volume their corners span, or, for a flat tetrahedron, by the order in which its corners are listed. |
| `OrientedSurface.SurfaceIsOriented` | crates/openmat-builtins/src/core_isosurface.rs:133-316 | Over the whole volume, any two kept triangles that share a side run along it in opposite directions, provided the tetrahedra lean opposite ways wherever kept triangles meet across a face. |
| `OrientedSurface.StraightIffRunsOnce` | crates/openmat-builtins/src/core_isosurface.rs:133-316 | That condition is exact: it holds if and only if no directed side is run along twice by kept triangles of the whole surface. |
| `OrientedSurface.UnfoldedIsStraight` | crates/openmat-builtins/src/core_isosurface.rs:133-316 | It holds whenever tetrahedra with a common face lie on opposite sides of it. |
| `IndexGrid.IndicesUnfolded` | crates/openmat-builtins/src/core_isosurface.rs:160-172 | With index coordinates all tetrahedra with a common face lie on opposite sides of it, in volumes of every size. |
| `FoldedGrid.FoldedRunsAlike` | crates/openmat-builtins/src/core_isosurface.rs:160-172 | A 2-by-2-by-2 volume with explicit coordinates in which two kept triangles run along their common side in the same direction, so that the condition fails. |
| `MixedRadix.DecodeEncode` | crates/openmat-array/src/shape.rs:166-228 | Decoding the column-major offset of in-range coordinates gives them back, for every rank. |
| `MixedRadix.EncodeDecode` | crates/openmat-array/src/shape.rs:166-228 | Encoding the decoded coordinates of an offset gives the offset back, and they are in range. |
| `Shapes.NewShape` | crates/openmat-array/src/shape.rs:26-55 | Succeeds if and only if every running product of the canonical extents fits 64 bits; the shape then has those extents, strides and count, and otherwise the error names the first overflowing extent. |
| `Shapes.EffectiveDimensions` | crates/openmat-array/src/shape.rs:111-138 | Collapsed or extended extents for any number of subscripts, with the exact overflow condition of the collapse; the error names the first extent that overflows and the product before it. |
| `Shapes.NonemptyCollapseFits` | crates/openmat-array/src/shape.rs:111-138 | For a shape with elements the collapse never overflows, whatever the number of subscripts. |
| `Shapes.OffsetForSubscripts` | crates/openmat-array/src/shape.rs:166-192 | The sum of the subscripts, less one each, times the strides, exactly when each is from one to its extent, the last one to the number of elements along the remaining axes, and those past the rank are one; otherwise exactly the error of the missing list, the linear index, the collapse or the first subscript out of range, with its fields; the checked offset arithmetic never overflows. |
| `Shapes.LinearIndexForSubscripts` | crates/openmat-array/src/shape.rs:199-203 | One more than the offset, or the same errors; no subscript list on any shape reaches OffsetOverflow. |
| `Shapes.SubscriptsForLinearIndex` | crates/openmat-array/src/shape.rs:214-228 | The subscripts of every index in range, for any positive count; the error cases otherwise. |
| `Shapes.SubscriptRoundTrip` | crates/openmat-array/src/shape.rs:166-228 | Index to subscripts and back is the identity for every count of subscripts. |
| `Shapes.LinearRoundTrip` | crates/openmat-array/src/shape.rs:166-228 | Subscripts to index and back is the identity for every valid subscript list. |
| `DenseArrays.AddressedIsAddress` | crates/openmat-array/src/dense.rs:128-131 | Subscripts address an element exactly when they are in range, and then the one at the sum over the strides. |
| `DenseArrays.Family.FromVec` | crates/openmat-array/src/dense.rs:48-63 | Adds a handle if and only if the element count matches the shape. |
| `DenseArrays.Family.Clone` | crates/openmat-array/src/dense.rs:29-33 | The new handle shares the buffer; the visible contents are a copy. |
| `DenseArrays.Family.DeepCopy` | crates/openmat-array/src/dense.rs:187-192 | The new handle has a fresh buffer with equal contents; existing handles are untouched. |
| `DenseArrays.Family.MakeMut` | crates/openmat-array/src/dense.rs:157-159 | Afterwards the buffer has one owner and is shared with no other handle; it is replaced if and only if it was shared; no contents change. |
| `DenseArrays.Family.ReadLinear` | crates/openmat-array/src/dense.rs:118-121 | The element at a one-based index, or the index error. |
| `DenseArrays.Family.ReadSubscripts` | crates/openmat-array/src/dense.rs:128-131 | The element the subscripts address, or the subscript error. |
| `DenseArrays.Family.WriteLinear` | crates/openmat-array/src/dense.rs:168-171 | Changes one element of one handle; a failed index detaches nothing and changes nothing. |
| `DenseArrays.Family.WriteSubscripts` | crates/openmat-array/src/dense.rs:180-201 | The same for subscripts of any count, with the subscript error. |
| `DenseArrays.Family.WriteSlice` | crates/openmat-array/src/dense.rs:157-159 | Every element of the handle that has a new value reads it back afterwards, all others and all other handles keep theirs. |
| `DenseArrays.Run` | crates/openmat-array/src/dense.rs:29-201 | Over every sequence of operations on any family of handles, all outcomes and the final contents are those of a machine in which cloning copies. |
| `Partitions.LocateUnique` | crates/openmat-builtins/src/core_conversion_extended.rs:801-829 | Every coordinate of an axis lies in exactly one of the consecutive intervals, empty ones included. |
| `Partitions.PartsOfPlace` | crates/openmat-builtins/src/core_conversion_extended.rs:801-855 | Position in a block to position in the whole and back: blocks do not overlap. |
| `Partitions.PlaceOfParts` | crates/openmat-builtins/src/core_conversion_extended.rs:801-855 | Position in the whole to block and position and back: blocks leave no gap. |
| `Blocks.GatherBlock` | crates/openmat-builtins/src/core_conversion_extended.rs:976-1003 | Gathers exactly the elements at the shifted coordinates, failing if and only if one of them is outside the source. |
| `Blocks.CutBlocks` | crates/openmat-builtins/src/core_conversion_extended.rs:735-855 | The cell has the canonical counts as extents and each block holds the elements of its intervals; it fails if and only if the source has no elements while some along the kept axes are asked for. |
| `Cutting.Mat2Cell` | crates/openmat-builtins/src/core_conversion_extended.rs:735-829 | The argument-count and sum errors, each exactly when it applies. With one vector, block i holds as many rows of the first page as entry i says, below those before, over all columns. With one per axis, the block at c has the lengths of its intervals and the elements moved by the lengths of the intervals before. It fails otherwise if and only if the array has no elements and the axes kept in the cell have some. |
| `Cutting.RowsOfMatrix` | crates/openmat-builtins/src/core_conversion_extended.rs:763-767 | With one vector the blocks reach over all of the other axes if and only if the array has rank two. |
| `Cutting.FirstPageOnly` | crates/openmat-builtins/src/core_conversion_extended.rs:763-855 | A 1-by-1-by-2 array cut by rows alone: the one block has the element of the first page only. |
| `Cutting.UncutEmptyPages` | crates/openmat-builtins/src/core_conversion_extended.rs:831-855 | A 1-by-1-by-0 array cut into one block each way: reading the block fails. |
| `Blocks.RecordBlock` | crates/openmat-builtins/src/core_conversion_extended.rs:1208-1228 | Records the extents of a block along every axis, keeping earlier ones, and fails only on a contradiction. |
| `Blocks.TilingPlan` | crates/openmat-builtins/src/core_conversion_extended.rs:1180-1262 | Finds the interval lengths all blocks fit, and fails only if there are none. |
| `Blocks.IndexOfDestination` | crates/openmat-builtins/src/core_conversion_extended.rs:1264-1307 | Every element of every block has its own place in the whole. |
| `Blocks.DestinationOfIndex` | crates/openmat-builtins/src/core_conversion_extended.rs:1264-1307 | Every place in the whole is filled by some element of some block. |
| `Tiling.TileBlock` | crates/openmat-builtins/src/core_conversion_extended.rs:1286-1304 | Writes in place exactly the places of one block and leaves all others. |
| `Tiling.TileAll` | crates/openmat-builtins/src/core_conversion_extended.rs:1264-1307 | The tiled array holds at every place the element that belongs there. |
| `Tiling.Cell2Mat` | crates/openmat-builtins/src/core_conversion_extended.rs:1015-1307 | Empty cells give the 0-by-0 array; otherwise the tiling of the blocks, or an error exactly when no grid fits them. |
| `TiledBlocks.TileCell` | crates/openmat-builtins/src/core_conversion_extended.rs:1015-1307 | Every element of every block is in the result at its position moved by the lengths of the blocks before it along each axis, and the result is as long as its blocks together. |
| `BlockRoundTrip.CutAndTile` | crates/openmat-builtins/src/core_conversion_extended.rs:801-1307 | Cutting by any partitions that sum to the extents and tiling gives the array back if and only if it has rank two or its last axis is cut into at least two blocks, or, when some axis is cut into no blocks, the array is 0-by-0. |
| `BlockRoundTrip.RowsIntoNone` | crates/openmat-builtins/src/core_conversion_extended.rs:1905-1925 | A 0-by-3 array whose rows are cut into no blocks does not come back, although it has rank two. |
| `BlockRoundTrip.UncutPages` | crates/openmat-builtins/src/core_conversion_extended.rs:831-855 | A 1-by-1-by-2 array whose pages are not cut apart does not come back. |
| `Grouping.GroupingPlan` | crates/openmat-builtins/src/core_conversion_extended.rs:526-573 | Fails exactly on repeated dimensions; otherwise the cell and block extents for any order of the list, also beyond the rank. |
| `Grouping.PairHasOffset` | crates/openmat-builtins/src/core_conversion_extended.rs:526-724 | Every (cell, position in block) pair reads an element of the source, from which the pair can be recovered. |
| `Grouping.OffsetHasPair` | crates/openmat-builtins/src/core_conversion_extended.rs:526-724 | Every source element is read by its pair: grouping is a bijection. |
| `Grouping.Num2Cell` | crates/openmat-builtins/src/core_conversion_extended.rs:493-724 | Every cell holds the elements of its group at their positions. |
| `GroupedElements.GroupElements` | crates/openmat-builtins/src/core_conversion_extended.rs:493-724 | Refused exactly on repeats; otherwise the cell has the extents of the dimensions not grouped, the blocks those of the grouped ones in the order listed, and every element is in the cell and at the position that its coordinates say. |
| `GroupRoundTrip.TiledIsSource` | crates/openmat-builtins/src/core_conversion_extended.rs:526-1307 | Tiling the blocks of an ascending grouping succeeds and gives back the source, also beyond the rank and across dropped singletons. |
| `Regrouping.GroupAndTile` | crates/openmat-builtins/src/core_conversion_extended.rs:526-1307 | For every list of dimensions: refused exactly on repeats; otherwise grouping and tiling gives what `ipermute` gives by the order of the list, or the 0-by-0 array when the cell is empty; on ascending lists the array comes back if and only if the cell has an entry or the array is 0-by-0. |
| `Regrouping.NoRows` | crates/openmat-builtins/src/core_conversion_extended.rs:1015-1035 | A 0-by-3 array with nothing grouped does not come back. |
| `Regrouping.DescendingTransposes` | crates/openmat-builtins/src/core_conversion_extended.rs:545-555 | A row grouped over its dimensions in descending order comes back as a column. |
| `Windows.WindowSpec` | crates/openmat-builtins/src/core_array_windows.rs:1271-1292 | Accepts exactly one positive length or two reaches that fit an index: a length is split evenly with the odd one out going back, two reaches are taken as they are. |
| `Windows.WindowGeometry` | crates/openmat-builtins/src/core_array_windows.rs:1778-1800 | The window is inside the axis and contains its centre, is padded exactly where it hangs over, never under Discard, and pads plus samples make up its length except when its end is cut to the largest host index. |
| `Windows.PadTooLong` | crates/openmat-builtins/src/core_array_windows.rs:1778-1800 | A window reaching forward by the largest index, at the first of two positions: the right pad is one too long. |
| `Windows.EvaluateWindow` | crates/openmat-builtins/src/core_array_windows.rs:2037-2078 | Padding and samples are considered in order, all offsets are in bounds, and some value is always chosen. |
| `Windows.MovingLines` | crates/openmat-builtins/src/core_array_windows.rs:1730-1818 | Outputs come in column-major order and the final length guard never fires. |
| `Windows.CountOuter` | crates/openmat-builtins/src/core_array_windows.rs:1755-1773 | Both ways of counting the outer blocks give the number of lines behind each inner position. |
| `MovingExtrema.MovingExtremum` | crates/openmat-builtins/src/core_array_windows.rs:1306-2080 | There is a position for every centre or, under Discard, for exactly the centres whose windows lie inside the axis. The value there is the smallest, or largest, that the window reaches on the same line, and the first of those on a par; the fill value takes part at each end exactly where the window hangs over. It fails exactly when a discarded window is too long to measure. |
| `OutputLines.OutputLine` | crates/openmat-builtins/src/core_array_windows.rs:1306-1818 | Elements that agree in all other coordinates are on the same line of input and output, although the output's rank may differ. |
| `Extrema.RulesAgree` | crates/openmat-builtins/src/core_array_windows.rs:2038-2077 | The cumulative rule and the moving rule, written separately, choose the same value on every line, for any comparison and either treatment of missing values. |
| `Extrema.ChosenIsExtreme` | crates/openmat-builtins/src/core_array_windows.rs:838-843 | What is chosen is a value of the line, missing exactly when all are (omitting) or some is (including). Otherwise, if the comparison orders the values, none of the line is less than a minimum or greater than a maximum; and if it ranks all of them, the first of those on a par is chosen. |
| `CumulativeExtrema.CumulateLine` | crates/openmat-builtins/src/core_array_windows.rs:1073-1099 | Writes in place the extremum so far along one line, from either end, and touches no other line. |
| `CumulativeExtrema.CumulativeDense` | crates/openmat-builtins/src/core_array_windows.rs:1049-1103 | Every output element is the smallest, or largest, of the input elements on its line from the start, or in reverse from the end, up to its place; short axes are returned as they are. |
| `CumulativeExtrema.CumulativeIsMoving` | crates/openmat-builtins/src/core_array_windows.rs:1049-2080 | A forward cumulative extremum equals the shrinking moving extremum whose window reaches back at least extent-1 and not forward. |
| `CumulativeExtrema.CumulativeAndMoving` | crates/openmat-builtins/src/core_array_windows.rs:1049-2080 | Both computed on the same array, axis and flag are the same array, whose every element is the extreme value of its line up to it. |
| `Lines.OffsetAlongAxis` | crates/openmat-array/src/shape.rs:85-97 | An element at coordinate x along an axis is element x of the line named by its other coordinates, at stride distance from its neighbours. |
| `AxisTransform.PlacesList` | crates/openmat-builtins/src/core_fft.rs:528-537 | The batch positions are a rearrangement of the offsets, each exactly once. |
| `AxisTransform.GatherAxis` | crates/openmat-builtins/src/core_fft.rs:509-539 | Fails if and only if the lines do not fill the values; otherwise the batch holds every line in turn. |
| `AxisTransform.ScatterAxis` | crates/openmat-builtins/src/core_fft.rs:541-570 | The inverse rearrangement in place; on failure nothing is written. |
| `AxisTransform.ScatterGather` | crates/openmat-builtins/src/core_fft.rs:509-570 | Scattering a gathered batch is the identity. |
| `AxisTransform.TransformIsFibrewise` | crates/openmat-builtins/src/core_fft.rs:453-479 | For any length-preserving line transform, gather, transform and scatter do to every line what the transform does to it alone, scaled by one over the length for the inverse. |
| `AxisTransform.TransformAxis` | crates/openmat-builtins/src/core_fft.rs:453-479 | Afterwards every line is what the provider makes of it or, for the inverse, what multiplied by the length is what the provider makes of it; axes of extent one or less and failures leave the values alone. |
| `AxisTransform.TransformRoundTrip` | crates/openmat-builtins/src/core_fft.rs:453-479 | If on every line of the length the provider's inverse after its forward transform multiplies both parts of each element by the length, then forward and inverse restore the array. |
| `AxisTransform.ForwardAndBack` | crates/openmat-builtins/src/core_fft.rs:453-479 | The same for the method run forward and back in place, whether or not the lines fill the values. |
| `FourierRoundTrip.TransformAndUnwind` | crates/openmat-builtins/src/core_fft.rs:221-283 | Over any axes, repeated ones included: forward along them and inverse along them in the opposite order restores the array, from that property of the provider alone. |
| `FourierRoundTrip.TransformAndBack` | crates/openmat-builtins/src/core_fft.rs:221-283 | The same with the axes of the inverse in any order, provided the provider's transforms are weighted sums of the elements of a line. |
| `WeightedSums.MappedExchange` | crates/openmat-builtins/src/core_fft.rs:221-283 | Transforms along different axes can be exchanged when they are weighted sums: summing the sums of the rows of a grid is summing the sums of its columns. |
| `FourierRoundTrip.ConditionsCanBeMet` | crates/openmat-builtins/src/core_fft.rs:453-479 | There are providers that meet these conditions on lines of every length. |
| `ConjugateSymmetry.ConjugateSymmetric` | crates/openmat-builtins/src/core_fft.rs:666-705 | True if and only if every element is close to the element at the mirrored coordinates. |
| `ConjugateSymmetry.ReflectedInBounds` | crates/openmat-builtins/src/core_fft.rs:680-699 | The mirrored offset of an element is always inside the array. |
| `ConjugateSymmetry.EnforcedLineSymmetric` | crates/openmat-builtins/src/core_fft.rs:578-658 | An enforced line of any length is symmetric, and enforcement changes a line if and only if it was not. |
| `ConjugateSymmetry.SymmetricByLines` | crates/openmat-builtins/src/core_fft.rs:666-705 | The test along one axis is symmetry of every line, at any rank and past it. |
| `ConjugateSymmetry.EnforcementIsProjection` | crates/openmat-builtins/src/core_fft.rs:578-705 | Enforced values pass the test exactly; they equal the original values if and only if those passed it. |
| `ConjugateSymmetry.EnforcementIdempotent` | crates/openmat-builtins/src/core_fft.rs:578-658 | Enforcing twice is enforcing once. |
| `ConjugateSymmetry.MirrorAxis` | crates/openmat-builtins/src/core_fft.rs:600-628 | The second half of every line becomes the mirror image of the first, in place. |
| `ConjugateSymmetry.ClearAxis` | crates/openmat-builtins/src/core_fft.rs:630-658 | Positions opposite to themselves become real on every line, in place. |
| `ConjugateSymmetry.EnforceAxisSymmetry` | crates/openmat-builtins/src/core_fft.rs:578-587 | Both passes: exact symmetry afterwards, no change if and only if symmetric before, and the exact failure condition. |
| `ConjugateSymmetry.ExactIsClose` | crates/openmat-builtins/src/core_fft.rs:572-576 | Exact symmetry passes the tolerant comparison. |
| `FourierTransform.Transform` | crates/openmat-builtins/src/core_fft.rs:221-283 | The loop over the axes in place, for both directions and all three ways: on an array of the right size no step fails, and the result is the chain of line transforms, with symmetry enforced before each for `symmetric`, and made real if the test passed or was not needed. Step by step, in terms of the provider and of coordinates: what becomes of each line, which data pass the test and with what tolerance, and which parts are kept. |
| `TransformSteps.TestByCoordinates` | crates/openmat-builtins/src/core_fft.rs:666-713 | The test passes exactly when elements opposite to each other along the axes are each other's conjugate within 32 units in the last place of one or, for larger numbers, of either of them. |
| `TransformSteps.EnforcedLineIs` | crates/openmat-builtins/src/core_fft.rs:578-658 | Enforcement keeps the first half of a line, makes the elements opposite to themselves real and puts the conjugates of the others at the opposite positions. |
| `InverseReality.TransformedSymmetry` | crates/openmat-builtins/src/core_fft.rs:233-255 | Transforming along an axis takes that axis out of a symmetry over several, in both directions. |
| `InverseReality.RealIffSymmetric` | crates/openmat-builtins/src/core_fft.rs:229-255 | The transform over any axes is real if and only if the data are symmetric over all of them together, which is what the test looks for. |
| `InverseReality.FoldThroughPlain` | crates/openmat-builtins/src/core_fft.rs:239-255 | Folding along an axis commutes with the transforms along the others. |
| `InverseReality.EnforcedIsPlain` | crates/openmat-builtins/src/core_fft.rs:239-255 | Enforcing symmetry before every transform is transforming data made symmetric along the first axis alone and folded over along each other one. |
| `InverseReality.EnforcementKeeps` | crates/openmat-builtins/src/core_fft.rs:239-255 | It leaves the result alone if and only if the data are symmetric along the first axis alone and along the first with each other one. |
| `FourierTransform.LineTransformLawful` | crates/openmat-builtins/src/core_fft.rs:453-505 | Dividing by the length and leaving short lines alone keep the laws of the line transform. |
| `FourierTransform.TransformThreeWays` | crates/openmat-builtins/src/core_fft.rs:221-283 | The three ways run on one array of any rank over any axes: when the plain result is real, when the automatic one is the plain one, what `symmetric` computes, and in both directions when that is the plain result. |
| `FourierTransform.SymmetricDiffers` | crates/openmat-builtins/src/core_fft.rs:239-244 | A 3-by-3 array that is symmetric over both axes, so that its transform is real, is transformed differently with `symmetric`. |
| `Resizing.ResizeValues` | crates/openmat-builtins/src/core_fft.rs:403-451 | The resized array holds the source element at every coordinate the source has and zero elsewhere. |
| `Resizing.InsideHits` | crates/openmat-builtins/src/core_fft.rs:419-447 | A coordinate found inside along the target axes hits a real source element if and only if the source has elements. |
| `Resizing.EmptySourceMisses` | crates/openmat-builtins/src/core_fft.rs:419-447 | A coordinate inside along both axes of a 1-by-1 target hits no element of a 1-by-1-by-0 source. |
| `Resizing.ResizeComposes` | crates/openmat-builtins/src/core_fft.rs:403-451 | Resizing through T equals resizing at once when each T extent is at least the smaller of the two ends, or when one end is empty. |
| `Resizing.ResizeLoses` | crates/openmat-builtins/src/core_fft.rs:403-451 | Otherwise some array loses an element on the way: the condition is exact. |
| `Resizing.PadThenCrop` | crates/openmat-builtins/src/core_fft.rs:403-451 | Padding and cropping back is the identity. |
| `Resizing.Resize` | crates/openmat-builtins/src/core_fft.rs:200-219 | The result has the target's extents, the source's element wherever the source has one and zero elsewhere; the shortcut for equal shapes agrees with the loop. |
| `Rearranging.MappedOffsets` | crates/openmat-builtins/src/core_array_transform.rs:377-414 | Decode, move, encode: the offsets are those of the moved coordinates. |
| `Rearranging.MoveCoordinates` | crates/openmat-builtins/src/core_array_transform.rs:341-375 | The flip and shift closures, updating the coordinates one by one. |
| `Rearranging.ReorderSlice` | crates/openmat-builtins/src/core_array_transform.rs:538-559 | Takes the elements at the offsets, or fails with the first one outside. |
| `Rearranging.Rearrange` | crates/openmat-builtins/src/core_array_transform.rs:341-559 | No mapped offset is ever outside, so flips and shifts never fail; a flip takes the element at x to extent-1-x, a shift takes it forward by the shift around the end, on every axis. |
| `Rearranging.FlipInvolution` | crates/openmat-builtins/src/core_array_transform.rs:341-357 | Flipping twice along any axis is the identity. |
| `Rearranging.ShiftForward` | crates/openmat-builtins/src/core_array_transform.rs:359-375 | A shift moves every element forward along each axis, around the end. |
| `Rearranging.ShiftsAdd` | crates/openmat-builtins/src/core_array_transform.rs:359-375 | Shifting by s and then by t is shifting by s + t, for all integers and list lengths. |
| `Rearranging.FrequencyShifts` | crates/openmat-builtins/src/core_array_transform.rs:128-162 | Half of every extent, or of one also past the rank, with the sign of the direction. |
| `Rearranging.FrequencyRearrange` | crates/openmat-builtins/src/core_array_transform.rs:128-157 | The shifted array, which is never an error: `fftshift` takes the element at 0 to extent/2 and those behind it along, around the end, and `ifftshift` takes them back. |
| `Rearranging.FrequencyShiftsUndo` | crates/openmat-builtins/src/core_array_transform.rs:128-162 | ifftshift undoes fftshift and the other way round, for odd and even extents, over one axis or all. |
| `Permuting.CheckPermutation` | crates/openmat-builtins/src/core_array_windows.rs:52-66 | Accepts exactly the lists that contain every axis once. |
| `Permuting.PlaceExtents` | crates/openmat-builtins/src/core_array_windows.rs:68-75 | Each input extent ends up at the axis its entry names. |
| `Permuting.InversePermute` | crates/openmat-builtins/src/core_array_windows.rs:38-97 | The extent of input axis i is that of output axis order[i], and elements are the same where the coordinates are so; the two errors exactly when they apply; no source offset is outside. |
| `Permuting.PermutesCompose` | crates/openmat-builtins/src/core_array_windows.rs:68-94 | Two permutations in a row are the composed one, across the dropping of trailing singletons between them. |
| `Permuting.PermuteUnique` | crates/openmat-builtins/src/core_array_windows.rs:68-94 | An array and an order determine the result. |
| `Permuting.PermuteRoundTrip` | crates/openmat-builtins/src/core_array_windows.rs:68-94 | Permuting by an order and then by its inverse restores shape and elements. |
| `Rotation.Rotate` | crates/openmat-builtins/src/core_array_windows.rs:99-163 | Every page is turned counterclockwise by any number of quarters, written out row by column for each; no source offset is outside. |
| `Rotation.QuarterTurn` | crates/openmat-builtins/src/core_array_windows.rs:127-135 | One turn is counterclockwise: the last column becomes the first row. |
| `Rotation.RotationsAdd` | crates/openmat-builtins/src/core_array_windows.rs:107-160 | Turning j times and then k times is turning j + k times, on every page and for negative counts. |
| `Rotation.TurnBack` | crates/openmat-builtins/src/core_array_windows.rs:107-160 | Turning back undoes turning. |
| `RadixDigits.DigitsValue` | crates/openmat-builtins/src/core_conversion_extended.rs:1600-1606 | The digits of a number have its value. |
| `RadixText.DigitWidth` | crates/openmat-builtins/src/core_conversion_extended.rs:1585-1592 | The number of digits. |
| `RadixText.DecimalOutputWidth` | crates/openmat-builtins/src/core_conversion_extended.rs:1532-1583 | The longest number, or with negative numbers the smallest of 8, 16, 32 and 64 bits that holds all; fails exactly when 64 bits do not. |
| `RadixText.FormattedValue` | crates/openmat-builtins/src/core_conversion_extended.rs:1594-1644 | Every number prints with exactly the width, and its text has the value of the number modulo the radix to the width; the length check never fails. |
| `RadixReading.ParseRadixText` | crates/openmat-builtins/src/core_conversion_extended.rs:1811-1861 | The number whose digits are the characters left after blanks, everywhere in binary and at both ends in hexadecimal text, and after one prefix, each digit 0-9, A-F or a-f at its place; the error for too many characters or for one that is no digit; the 64-bit overflow error is never reached. |
| `RadixReading.NumeralIsSignificant` | crates/openmat-builtins/src/core_conversion_extended.rs:1811-1831 | Printed digits are neither blanks nor a prefix: all are read. |
| `RadixUnits.DigitCharacters` | crates/openmat-builtins/src/core_conversion_extended.rs:1600-1875 | Digits are printed as 0-9 and A-F, and exactly these and a-f are read, as the same digits. |
| `RadixUnits.CasesAlike` | crates/openmat-builtins/src/core_conversion_extended.rs:1867-1875 | Upper and lower case read alike. |
| `RadixUnits.FixedRanges` | crates/openmat-builtins/src/core_conversion_extended.rs:1579-1583 | The ranges of the four fixed widths, written out. |
| `RadixUnits.NaturalWidthIsLeast` | crates/openmat-builtins/src/core_conversion_extended.rs:1532-1592 | No smaller number of digits holds all the numbers. |
| `RadixMatrix.CharRows` | crates/openmat-builtins/src/core_conversion_extended.rs:1646-1663 | Row i of the column-major matrix is text i. |
| `RadixMatrix.DecimalText` | crates/openmat-builtins/src/core_conversion_extended.rs:1344-1371 | The printed matrix for any list and minimum width: character j of row i is the upper-case digit of number i at its place from the right, negative numbers in two's complement; with the exact failure condition. |
| `RadixMatrix.RadixDecimal` | crates/openmat-builtins/src/core_conversion_extended.rs:1697-1746 | Every row parsed in order, with the error of the first bad row and the output extents. |
| `RadixMatrix.TextRoundTrip` | crates/openmat-builtins/src/core_conversion_extended.rs:1344-1861 | Printed and read back every number is itself modulo the radix to the printed width, nonnegative numbers exactly, if and only if the minimum width and every number fit 16 or 64 digits; otherwise the error is the one for too many digits. |
| `RadixMatrix.PrintedWidthReadable` | crates/openmat-builtins/src/core_conversion_extended.rs:1532-1583 | The printed width is within the reader's limit if and only if the minimum width and every number are. |
| `RadixMatrix.TooWide` | crates/openmat-builtins/src/core_conversion_extended.rs:1344-1861 | The number 1 printed with seventeen hexadecimal digits is not read back. |
| `Joining.InputOf` | crates/openmat-builtins/src/core_concat.rs:516-524 | Every output coordinate along the axis belongs to exactly one input interval. |
| `Joining.JoinedUnique` | crates/openmat-builtins/src/core_concat.rs:294-545 | The slices determine the concatenation, extents and elements. |
| `Joining.JoinNested` | crates/openmat-builtins/src/core_concat.rs:294-545 | Concatenating some of the inputs first makes no difference, on any axis including those past the rank. |
| `Joining.CompatibleNested` | crates/openmat-builtins/src/core_concat.rs:320-336 | Inputs are compatible if and only if they are after concatenating some of them. |
| `Joining.NestedIsFlat` | crates/openmat-builtins/src/core_concat.rs:294-545 | Concatenating concatenations of any groups is the flat concatenation. |
| `Concatenation.MakeIntervals` | crates/openmat-builtins/src/core_concat.rs:294-354 | The running intervals are the partial sums of the extents; the error names the first input that does not fit. |
| `Concatenation.ConcatMap` | crates/openmat-builtins/src/core_concat.rs:501-545 | Every element is fetched from the only interval that holds its coordinate; no lookup or offset fails. |
| `Concatenation.Concatenate` | crates/openmat-builtins/src/core_concat.rs:92-124 | Succeeds if and only if the inputs are compatible, and then every input is the slice at its interval; the empty and single cases. |
| `Nesting.ConcatenateGroups` | crates/openmat-builtins/src/core_concat.rs:92-545 | Nested calls against one call with all members, for any groups, empty ones included: when the nested calls succeed, what they join, and in both directions when the two agree. |
| `Nesting.FilledCompatible` | crates/openmat-builtins/src/core_concat.rs:92-354 | With a 0-by-0 array for every empty group the members fit if and only if they fit without, and each fits the 0-by-0 array. |
| `Nesting.NothingAndNumber` | crates/openmat-builtins/src/core_concat.rs:100-102 | An inner call without arguments beside a 1-by-1 array: nested calls fail where one call gives the array. |
| `Nesting.NothingTwice` | crates/openmat-builtins/src/core_concat.rs:100-102 | Two inner calls without arguments along the third axis do not give the 0-by-0 array of one call. |
| `Broadcasting.ImplicitShape` | crates/openmat-builtins/src/core_bitwise.rs:974-992 | Accepts exactly the pairs whose extents agree or are one, and gives the common shape. |
| `Broadcasting.CompatibleShape` | crates/openmat-builtins/src/core_coordinates.rs:329-358 | The same for any number of shapes. |
| `Broadcasting.CommonShapeUnique` | crates/openmat-builtins/src/core_coordinates.rs:329-358 | The common shape is determined by the shapes. |
| `Broadcasting.InputOffsetInBounds` | crates/openmat-builtins/src/core_bitwise.rs:994-1024 | The output coordinate with expanded axes set to zero is inside the input. |
| `Broadcasting.UnexpandedInput` | crates/openmat-builtins/src/core_coordinates.rs:413-442 | An input that is not expanded is read in place. |
| `Broadcasting.OffsetByStrides` | crates/openmat-builtins/src/core_bitwise.rs:994-1024 | Dividing by strides finds that offset and never fails. |
| `Broadcasting.OffsetByRemainder` | crates/openmat-builtins/src/core_coordinates.rs:413-442 | Carrying a remainder finds the same offset. |
| `Broadcasting.BothImplementations` | crates/openmat-builtins/src/core_coordinates.rs:329-442 | The two implementations accept exactly the expandable pairs, give their common shape and read the same in-bounds elements: those at the output's coordinates, at the first position along axes where the input has one. |
| `Differences.DifferenceOnce` | crates/openmat-builtins/src/core_accumulate.rs:393-431 | On every line each output element is the next input element less the one at its place, and there is one fewer of them. |
| `Differences.LinesAddUp` | crates/openmat-builtins/src/core_accumulate.rs:393-431 | The first element of a line and the first k differences added to it give element k, whenever adding undoes subtracting. |
| `Differences.DifferenceTwice` | crates/openmat-builtins/src/core_accumulate.rs:355-391 | The loop run for order a and then for order b gives what it gives run once for order a + b, on explicit and default axes, through its early exits and the collapse to an empty array. |
| `Differences.PassShrinks` | crates/openmat-builtins/src/core_accumulate.rs:355-391 | Every pass takes at least one from the sum of the extents counting the axis. |
| `Differences.ExtentAfter` | crates/openmat-builtins/src/core_accumulate.rs:393-431 | Along an explicit axis each order takes one position until none is left. |
| `Differences.DifferenceDense` | crates/openmat-builtins/src/core_accumulate.rs:355-391 | The loop with its early exits gives what is reached by as many passes one after the other, each of which takes the differences along the axis or along the first one with more or less than one position, or leaves an array without positions or the 0-by-0 array; it makes a pass exactly as long as there is a difference to take, and no more of them than the extents add up to. |
| `Differences.OrdersSettle` | crates/openmat-builtins/src/core_accumulate.rs:355-391 | For every array, an order past the sum of the extents gives what the sum itself gives. |

## Left out

- Dispatch over value classes, class dominance in concatenation and element conversion: kernels are modelled over a generic element type.
- Floating-point rounding, signed zeros and non-finite numbers: field values, positions and complex numbers are reals, and a missing value is given by a predicate.
- Cubes with non-finite corners, which the extractor skips, and the 32-bit limit on vertex numbers.
- The dropping of triangles of negligible area is modelled, but the surface is stated to be closed before it, since dropping triangles can open it.
- Host index limits outside shape arithmetic and window geometry: other sums and products are unbounded, so their overflow errors are not modelled.
- Cancellation, allocation failure and message texts.
- The Fourier provider: a length-preserving function of one line, whose own failures are not modelled.  For round trips its two transforms are asked to multiply a line by its length and, unless the axes are undone in the opposite order, to be weighted sums of its elements.  The other statements on several axes ask of the inverse one only that it is injective and turns the conjugate of a line read the other way round into the conjugate (`FourierTransform.LawsCanBeMet`: such functions exist).
- The single-precision variants, which repeat the double-precision ones.
- Argument parsing: default axes of `flip` and `circshift`, the scalar and vector forms of shifts, window options, and text given as strings or cells instead of char matrices.
- The final conversion of a parsed integer to a double: the accumulated integer is stated.
- `cell2mat` of cells holding cells, and the checks that all blocks have one class.
- Sparse arrays, moving sums and means, cumulative sums and products, `shiftdim`, `repelem`, `blkdiag`, `ndgrid`: easier relatives of what is modelled, or not self-contained.
- The user interface, plugin headers, simulation kernel and compiler.
