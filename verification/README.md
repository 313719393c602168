# Simit's index structures, rewriters and space-filling curve, in Dafny

Simit compiles programs over graphs to sparse matrix code. This project models the parts of the
repository whose correctness rests on an argument that no single function shows, and proves that
argument for all inputs. `dafny verify dfyconfig.toml` checks everything.

**The Hilbert curve** (`Words`, `HilbertCurve`, `HilbertPath`, `HilbertNumbers`, `HilbertWords`,
`BitTranspose`, `HilbertCodec`, `HilbertOrder`). Words are natural numbers with bit operations
defined on them. The reference curve works on digit lists: one digit of an index and one cell of a
point per level, and a frame (rotation, flip, previous digit) that changes from level to level. On
it the round trips and the adjacency of consecutive points are proved for any number of dimensions
and bits; the methods that shift and xor packed words are proved to compute it, including the
logarithmic bit transpose, the comparison of points and the in-place successor.

**Path indices** (`PathExpressions`, `GraphMeaning`, `GridPaths`, `MemoTable`, `OppositeLinks`,
`PathIndices`, `PathIndexBuilding`, `Locations`). A path expression is a formula over two free variables. The
built index is proved to be the relation the formula denotes, whatever the memo table already
holds, and the search and the address formulas of compiled code are proved to hit the right slots
of it. Two facts about the memo table came out of the proofs. Keys of expressions whose
quantified operands are wired in opposite directions collide, and the shared entry is right exactly
if the expressions denote one relation, so the builder demands of its requests only that every form
stands for one relation. A condition on the shape that guarantees this: quantified connectives of
one form have their operands in the same order, or operands made of stencils on one grid, since
shifts can be exchanged. For two links that condition is exact; without stencils the indices differ
on some graph as soon as the two expressions relate different sets. For nested operands that relate
one set to itself and are not made of stencils only, no exact condition on the shape is given here.
And some keys cannot be compared at all, because two lists of quantified variables of different
lengths are walked in step.

**Grids and stencils** (`Grids`, `StencilNorm`, `StencilAddressing`, `StencilAssembly`).
Linearization and coordinates are inverse to each other, the scatter-to-gather rewriting of `+=`
kernels keeps the assembled matrix exactly under a condition on the writes, and compile-time
addresses agree with the stored index along the emitted loop nest, so that the values stored by a
run are the matrix of the kernel as it was written. What a write adds is defined on points and steps
of the grid, without the offsets that the rewriter works with.

**Data structures that are transformed in place** (`Sorting`, `Csr`, `CsrEntries`, `Vectors`,
`TetSurface`, `TetSurfaceClosed`, `TetSurfaceVolume`, `Reorder`, `HexGeometry`, `ShapeFunctions`,
`Parallelepipeds`, `Lulesh`, `LuleshForces`, `LuleshWork`). Block-CSR to CSR conversion keeps the
matrix for exactly the block shapes for which its stride is right, and every value of every block is
found where it belongs; the extracted surface of a tetrahedral mesh is closed and, if the elements
are oriented consistently, encloses their volume, seen from outside; reordering vertices is an
isomorphism of the graph and its fields. The force loops conserve momentum on any mesh, stress
forces do the work of the stresses, and hourglass forces take a sum of squares from every motion and
nothing from motions that are linear in space.

**Rewriters** (`IR`, `Spill`, `SpillShape`, `Inline`, `InlineCalls`, `CallInlining`,
`InlineShape`). A statement language with assignments, `+=`, blocks, scopes, conditionals, ranges,
`while`, output and by-value calls has a big-step semantics with fuel for `while` only. Spilling and
inlining are proved to preserve it for terminating and non-terminating runs alike, and to do what
they are for: chosen operands end up in temporaries of their own, chosen calls become the bodies of
their callees.

Classes stand for the source's objects that change (`NormalizeRowIndices`, `PathIndexBuilder`,
`MeshVol`, `IRRewriter`, `CallRewriter`, `Domain`), arrays for the buffers it overwrites; each such
method is proved against a specification function, about which the lemmas are then stated.

Where code and comments disagree the model follows the code: the comment at
`src/util/collections.h:204-205` says that walking two collections in step stops at the end of the
smaller one; the iterator at lines 154-157 of the same file stops only when both ends are reached
together, so comparing lists of different lengths is modelled as undefined.

## Model

| member | source | states |
|---|---|---|
| HilbertNumbers.IndexOfPoint | src/hilbert.cpp:138-241 | for every number of dimensions and bits, every index of nDims*nBits bits has a point with nBits-bit coordinates, and the index of that point is the index again |
| HilbertNumbers.PointOfIndex | src/hilbert.cpp:138-241 | every point with nBits-bit coordinates has an index below 2^(nDims*nBits), and the point of that index is the point again |
| HilbertNumbers.ConsecutivePointsAreNeighbours | src/hilbert.cpp:138-181 | adjacency: the points of i and i+1 differ in one coordinate only, and there by exactly 1 |
| HilbertNumbers.NextPoint | src/hilbert.cpp:1053-1092 | complementing the low bits of one coordinate, up to the level where the carry stops, gives a neighbour in range whose index is one more; this holds for every point except the last |
| HilbertPath.CurveStep | src/hilbert.cpp:138-181 | from the digit where the carry stops downwards, and nowhere else, every level changes, always in one and the same coordinate, and the lower bits of that coordinate are the complement of the carrying one; from any frame (rotation, flip, previous digit) |
| HilbertCurve.DigitsOfCellsOfDigits | src/hilbert.cpp:138-241 | the round trip per level, from any frame reachable in the loops, for lists of any length |
| HilbertCurve.CellsOfDigitsOfCells | src/hilbert.cpp:138-241 | the opposite round trip per level |
| HilbertCurve.GrayStep | src/hilbert.cpp:155-156 | counting by one flips exactly one bit of the Gray code: the lowest set bit of the successor |
| HilbertWords.GrayWord | src/hilbert.cpp:155-156 | xor with the shifted word and the per-digit mask Gray codes all digits of the packed index separately |
| HilbertWords.GrayOfWord | src/hilbert.cpp:231-234 | the second mask turns the per-digit Gray code into the Gray code of the whole word |
| HilbertWords.NthBitsIsQuotient | src/hilbert.cpp:155 | the quotient of two masks of ones is the mask with one bit per digit |
| HilbertWords.UndoXorShift | src/hilbert.cpp:235-236 | the doubling shifts invert w ^ (w >> k) for any width and any k >= 1 |
| HilbertWords.AdjustRotation | src/hilbert.cpp:30-38 | the macro, with its search for the lowest set bit, moves the rotation as the reference curve does and keeps it below nDims |
| HilbertCurve.NextRotIsRemainder | src/hilbert.cpp:30-38 | the reference rotation is (rotation + 1 + place of the lowest set bit) modulo nDims |
| HilbertCodec.HilbertI2C | src/hilbert.cpp:138-181 | writes the point of the index into coord |
| HilbertCodec.TurnDigits | src/hilbert.cpp:158-165 | the loop over the digits of the Gray-coded index keeps rotation and flip in step with the reference frames |
| HilbertCodec.Unpack | src/hilbert.cpp:173-177 | after the transpose the coordinates lie one after the other and are masked out |
| HilbertCodec.HilbertC2I | src/hilbert.cpp:196-241 | returns the index of the point in coord |
| HilbertCodec.TurnCells | src/hilbert.cpp:222-230 | the loop over the levels of a point produces the Gray-coded digits |
| HilbertCodec.OneDimensionPoint | src/hilbert.cpp:138-181 | with one dimension the point of an index is the index |
| HilbertCodec.OneDimensionIndex | src/hilbert.cpp:196-241 | with one dimension the index of a point is its coordinate |
| BitTranspose.Fast | src/hilbert.cpp:51-102 | the logarithmic version transposes the nDims x nBits bit matrix, for all sizes, odd field widths included |
| BitTranspose.EvenPass | src/hilbert.cpp:87-93 | a pass over fields of even width halves all fields of every row at once |
| BitTranspose.OddPass | src/hilbert.cpp:73-83 | a pass over fields of odd width also puts the top bit of every field at its final place |
| BitTranspose.BitByBit | src/hilbert.cpp:104-121 | the version in the #else branch transposes the matrix |
| BitTranspose.TransposeUnique | src/hilbert.cpp:50-122 | a word has only one transpose |
| BitTranspose.TransposeBack | src/hilbert.cpp:50-122 | transposing with exchanged sizes undoes a transpose |
| BitTranspose.BothVersions | src/hilbert.cpp:50-122 | the logarithmic and the bit-by-bit version return the same word |
| BitTranspose.ThereAndBack | src/hilbert.cpp:168-219 | the transpose of one conversion and that of the other, with exchanged sizes, give the word back |
| HilbertOrder.HilbertIncr | src/hilbert.cpp:1053-1092 | in-place successor: afterwards coord is the point of the next index; at the last point coordinate 0 is complemented instead |
| HilbertOrder.ReadRow | src/hilbert.cpp:1070-1071 | gathers bit b of all coordinates |
| HilbertOrder.LowestOne | src/hilbert.cpp:1090 | finds the lowest set bit of rd |
| HilbertOrder.HilbertCmp | src/hilbert.cpp:530-578 | reading levels from the top and stopping at the first difference returns -1, 0 or 1 as comparing the two indices does, in either byte order |
| HilbertOrder.DecideDigit | src/hilbert.cpp:549-560 | at the first level that differs the parity of the Gray-coded prefix decides as the two digits compare |
| HilbertOrder.GetIntBits | src/hilbert.cpp:253-281 | gathers one bit of every coordinate from the bytes of a point, in either byte order |
| HilbertOrder.FirstByte | src/hilbert.cpp:249-262 | the first byte is the lowest in little endian order and the highest in big endian order |
| Grids.LinearOfCoords | src/graph.h:195-248 | linearizing the coordinates of a grid point gives the point, in any number of dimensions |
| Grids.CoordsOfLinear | src/graph.h:195-248 | the coordinates of a linearized point are the point |
| Grids.GridPoint | src/graph.h:195-211 | the loop linearizes the coordinates and rejects results outside of the grid |
| Grids.GridPointCoords | src/graph.h:236-248 | the loop peels the coordinates off the identifier |
| Grids.PointCoord | src/grid_ops.h:13-28 | the nested expression built from the slowest dimension down has the same value |
| Grids.OffsetIndices | src/grid_ops.h:97-118 | the emitted indices are base plus offset modulo the dimensions, never negative |
| Grids.DoubleModulus | src/grid_ops.h:109-111 | the double truncated remainder is the Euclidean one for all operands |
| Grids.SingleModulus | src/path_indices.cpp:295-298 | the single truncated remainder is the Euclidean one if and only if the sum is not negative or the point lands on a multiple of the dimension |
| Grids.WrapsEverywhere | src/path_indices.cpp:295-298 | an offset is wrapped correctly at all coordinates if and only if it reaches back over at most one period or the dimension has one point |
| Grids.MovedCoords | src/grid_ops.h:97-118 | where an offset leads, coordinate by coordinate |
| Grids.StepAlong | src/graph.h:195-211 | one step along a dimension leads as many points further as the smaller dimensions have points, and from the last coordinate back to the first |
| PathExpressions.EqIsSameForm | src/path_expressions.cpp:61-103 | equality says yes exactly for expressions of the same form: same links and stencils, same operators, same number of quantified variables; names, link types and wiring do not count |
| PathExpressions.SeesThroughRenaming | src/path_expressions.cpp:314-322 | comparing a renamed expression is comparing the expression |
| PathExpressions.LessIsOrder | src/path_expressions.cpp:197-271 | where the comparison is defined it is a total preorder defined independently of it |
| PathExpressions.StrictWeakOrder | src/path_expressions.cpp:197-271 | on comparable keys the comparison is irreflexive, asymmetric and transitive, and incomparability is transitive, as std::map needs |
| PathExpressions.SameKeyIsSameForm | src/path_expressions.cpp:197-271 | two comparable keys are one key exactly when they have the same form |
| PathExpressions.LessDefined | src/path_expressions.cpp:197-271 | the exact condition under which the comparison of two keys is defined |
| PathExpressions.IncomparableKeys | src/path_expressions.cpp:197-271 | two keys, differing in whether their first operand is quantified, for which the comparison is not defined |
| MemoTable.SameFormSameRows | src/path_indices.cpp:519-531 | expressions of the same form have the same rows if their quantified connectives have the operands in the same order, or consist of stencils on one grid |
| MemoTable.WiredAlikeUnambiguous | src/path_indices.cpp:519-531 | so a family without two members of one form that are wired differently can use one table |
| MemoTable.ForwardUnambiguous | src/path_indices.cpp:519-531 | families whose quantified connectives all have their source operand first can use one table |
| MemoTable.OppositeWiring | src/path_indices.cpp:519-531 | different wiring makes the table confuse indices: any two expressions of one form whose outermost quantified connectives are wired oppositely share a key; each relates a set to itself through the set of the other, and the indices differ wherever these differ in size |
| OppositeLinks.OppositeDiffer | src/path_indices.cpp:519-531 | without stencils there is such a graph, with the same sets, as soon as the two relate different sets |
| OppositeLinks.VerticesAndEdges | src/path_indices.cpp:519-531 | "vertices joined by an edge" and "edges joined by a vertex" are such a pair on every graph, with different indices wherever there are not as many vertices as edges |
| OppositeLinks.SharedExactly | src/path_indices.cpp:519-531 | for quantified connectives of two links, And or Or: expressions of one form have the same index on all graphs on which stencils lie over one grid if and only if their operands come in the same order or are both stencils |
| OppositeLinks.DifferentGrids | src/path_indices.cpp:277-304 | stencils over different grids of one size must not be exchanged: a graph of four points shows it |
| GridPaths.OnGridRows | src/path_indices.cpp:205-513 | an expression of any size whose links are all stencils on one grid denotes a relation that does not change when both ends move by one offset |
| GridPaths.EitherOrder | src/path_indices.cpp:393-513 | such relations can be composed in either order, for And and Or |
| MemoTable.IncomparableKeysAreWired | src/path_indices.cpp:519-531 | the keys that cannot be compared are legitimate inputs of the builder |
| GraphMeaning.RowsAreTheMeaning | src/path_indices.cpp:205-513 | for every wired path expression: b stands in row a if and only if the formula holds of (a, b), with quantified And as composition and quantified Or as "some q with L or R" |
| GraphMeaning.QuantifiedMeaning | src/path_indices.cpp:393-513 | the same for the two quantified connectives, whose bounds are the sets the quantified variable ranges over |
| PathIndices.Pack | src/path_indices.cpp:172-203 | packs neighbour vectors into row pointers and sinks, sorting the rows if asked to |
| PathIndices.PackedIsValid | src/path_indices.cpp:172-203 | row pointers run monotonically from 0 to the number of sinks |
| PathIndices.PackedRow | src/path_indices.cpp:172-203 | the neighbours of v in the packed index are row v |
| PathIndices.BuildEv | src/path_indices.cpp:207-247 | the loop over endpoint sets and edges fills rows of constant length with the endpoints from the vertex set |
| PathIndices.EvStart | src/path_indices.cpp:207-247 | row e of such an index starts at e times the number of endpoints from the vertex set |
| PathIndices.BuildVe | src/path_indices.cpp:248-276 | every vertex has the edges it is an endpoint of, in ascending order |
| PathIndices.BuildVv | src/path_indices.cpp:277-304 | every grid point has one neighbour per stencil offset, wrapped around, for all offsets that the single remainder wraps correctly |
| PathIndexBuilding.Intersect | src/path_indices.cpp:376-391 | the index of an And holds the neighbours common to both operands |
| PathIndexBuilding.Unite | src/path_indices.cpp:446-457 | the index of an Or holds the neighbours in either operand |
| PathIndexBuilding.Compose | src/path_indices.cpp:411-420 | the index of a quantified And holds the neighbours of neighbours |
| PathIndexBuilding.ReachEither | src/path_indices.cpp:481-504 | the index of a quantified Or: all sinks for sources that reach some quantified element, and the sinks reached from some quantified element for all sources |
| PathIndexBuilding.PathIndexBuilder.Find | src/path_indices.cpp:522-526 | a hit in the table is the index of the expression that was asked for; a miss means that no entry has its key and endpoint |
| PathIndexBuilding.PathIndexBuilder.BuildSegmented | src/path_indices.cpp:519-531 | whatever was built before, the result is the packed rows of the expression, and the table only grows |
| PathIndexBuilding.PathIndexBuilder.Visit | src/path_indices.cpp:359-513 | every case of the visitor returns the packed rows of the expression |
| PathIndexBuilding.PathIndexBuilder.BuildAll | src/path_indices.cpp:519-531 | every sequence of calls returns what building each expression afresh would |
| PathIndexBuilding.TransparentMemo | src/path_indices.cpp:519-531 | two builders with any history return the same index, and it is the relation the formula denotes |
| PathIndexBuilding.SharedEntry | src/path_indices.cpp:519-531 | expressions of one form share their entries, and an entry made for one of them is right for another if and only if they have the same rows; this is all the builder demands of a family |
| Locations.Loc | src/runtime.cpp:19-23 | the unbounded search stops at the first slot from the start of the row that holds the neighbour |
| Locations.OneSlot | src/inline.cpp:524-577 | in the index of "vertices joined by an edge" a neighbour stands in one slot of its row |
| Locations.LocOfPair | src/inline.cpp:524-577 | for every edge and pair of its endpoints the search ends inside the row of the first, at the only slot that holds the second |
| Locations.GatherVVLocs | src/inline.cpp:524-577 | the locations of all pairs of endpoints of an edge that index the matrix |
| Locations.LocInVe | src/inline.cpp:579-632 | for vertex-to-edge indices the search ends inside the row of the vertex, at the first slot of the edge |
| Locations.GatherEVLocs | src/inline.cpp:649-686 | the emitted location is edge times cardinality plus place, or the running count among endpoints of the same set |
| Locations.EvSlots | src/inline.cpp:649-686 | those formulas hit the slots of the built index that hold the endpoints, and hit every slot of the row exactly once |
| StencilNorm.NormalizationKeepsMatrix | src/stencil_norm.cpp:30-107 | the positive half entry by entry, and the rewritten kernel writes only to the row of its own point |
| StencilNorm.NormalizationIsExact | src/stencil_norm.cpp:30-107 | for every kernel of += writes: the matrix is the same for all fields, operators and entries if and only if every write to it reads the grid only relatively to the point or has a row offset made of whole periods; the losses of several affected writes never cancel |
| StencilNorm.NormalizeRowIndices.VisitSetRead | src/stencil_norm.cpp:30-53 | grid reads, with one offset or two, are shifted by the recorded offset |
| StencilNorm.NormalizeRowIndices.VisitTensorWrite | src/stencil_norm.cpp:55-107 | a write is rewritten with the negated row offset and the field is cleared again |
| StencilNorm.NormalizeRowIndices.RewriteKernel | src/stencil_norm.cpp:30-107 | all writes of a kernel are rewritten independently of each other |
| StencilNorm.OwnRowKept | src/stencil_norm.cpp:72-107 | a write to the row of the kernel's own point, whose offset is zero in every dimension, keeps its value and its column |
| StencilNorm.OwnRowsMatrix | src/stencil_norm.cpp:72-107 | if all writes to a matrix are to the row of the own point, row i is what the run at point i writes: the values at i of the writes whose column leads from i to j |
| StencilAddressing.BuildStencil | src/stencils.cpp:72-128 | the layout numbers the distinct column offsets in the order they are first written |
| StencilAddressing.GetLayoutReversed | src/stencils.cpp:23-30 | inverts the numbering |
| StencilAddressing.StencilAddress | src/tensor_index.cpp:85-94 | row v starts at v times the size of the layout, and at the location of an offset stands the grid point at that offset modulo the dimensions |
| StencilAddressing.BuildStencilLocs | src/inline.cpp:463-472 | the compile-time locations point at the columns of the row and are pairwise different |
| StencilAddressing.EmitNest | src/inline.cpp:858-867 | builds the nest with dimension 0 innermost |
| StencilAddressing.NestVisits | src/inline.cpp:858-867 | running any part of the nest visits its grid points in order |
| StencilAddressing.GridNest | src/inline.cpp:858-867 | the k-th time the kernel runs, loopVar is k and the grid index variables are the coordinates of point k |
| StencilAddressing.KernelAddresses | src/inline.cpp:858-867 | whenever the kernel runs, the address computed from loopVar holds the point that the shifted grid index variables linearize to |
| StencilAssembly.RunNest | src/inline.cpp:858-867 | running a kernel along the nest and adding at computed addresses leaves an array that, read through the stored index, is the assembled matrix |
| StencilAssembly.AssembleStencil | src/stencils.cpp:72-128 | end to end: normalize, number the columns, build the index, run the nest; the array is the matrix that the kernel assembles as it was written; for kernels that write to their own row the stored value at (i, j) is what the run at i writes there |
| Csr.MakeTuples | src/ffi.h:30-44 | lists the entries of all blocks |
| Csr.SortedSorts | src/ffi.h:46-47 | sorting orders the entries by row and column and permutes them |
| Csr.RowPointers | src/ffi.h:54-60 | counts and prefix sums give the number of entries in earlier rows |
| Csr.Fill | src/ffi.h:62-68 | every entry is placed at the pointer of its row, which ends up one row ahead |
| Csr.FillPosition | src/ffi.h:62-68 | that place is the place of the entry in the sorted list |
| Csr.ShiftBack | src/ffi.h:70-73 | moves all pointers back by one row |
| Csr.ConvertToCSR | src/ffi.h:23-74 | the arrays hold the converted matrix |
| Csr.ConvertedIsCsr | src/ffi.h:23-74 | row pointers run from 0 to the number of entries and columns are nondecreasing in each row |
| CsrEntries.TupleAt | src/ffi.h:30-44 | the tuple of row bi and column bj of block j in block row i is (i*bsX+bi, colIdx[j]*bsY+bj, buffer[j*bsX*bsY+bsX*bi+bj]) and stands at place j*bsX*bsY+bi*bsY+bj |
| CsrEntries.TupleFrom | src/ffi.h:30-44 | there are no other tuples: every place is that of a row and a column of a block |
| CsrEntries.ConvertedHas | src/ffi.h:23-74 | every such tuple is an entry of the result, between the pointers of its row |
| CsrEntries.ConvertedThere | src/ffi.h:23-74 | the result has that value there if no other block of the row stands in the same block column |
| CsrEntries.BlockedThere | src/ffi.h:30-44 | the blocked matrix has the value at j*bsX*bsY+stride*bi+bj there, for both strides |
| Csr.ConvertedEntries | src/ffi.h:23-74 | the entries are those of the blocked matrix as a multiset, each in the row its place belongs to |
| Csr.ConvertedValue | src/ffi.h:23-74 | the sum at (r, c) is that of the blocked matrix read with the stride the code uses |
| Csr.ConversionKeepsMatrix | src/ffi.h:30-44 | the sum is that of the blocked matrix with its rows stored one after the other, if blocks are square or have one row |
| Csr.ReadsInBounds | src/ffi.h:30-44 | all reads stay inside the buffer if and only if blocks have one row, have no more rows than columns, or there are none |
| Csr.WrongValue | src/ffi.h:23-74 | for every shape with more columns than rows and more than one row there is a matrix whose conversion has a wrong value at (1, 0) |
| Csr.ShapesConverted | src/ffi.h:23-74 | all matrices with blocks of a shape are read in bounds and converted with all their values if and only if the blocks are square or have one row |
| TetSurface.MeshVol.ElementNeighbors | src/mesh.cpp:376-384 | the ascending list of elements around every vertex |
| TetSurface.FiveVertices | src/mesh.cpp:531-569 | two tetrahedra have five vertices together exactly when they share one face |
| TetSurface.FindTetFace | src/mesh.cpp:502-516 | returns the first face whose vertices are all shared, or face 0 if there is none |
| TetSurface.MeshVol.MarkPair | src/mesh.cpp:533-569 | comparing two elements clears the flags of their common face in both and no other flag |
| TetSurface.MeshVol.MarkExterior | src/mesh.cpp:533-569 | if every vertex is used, the flags left are those of the faces that no other element shares |
| TetSurface.KeptMeans | src/mesh.cpp:533-569 | without duplicate elements a face is kept exactly when no other element has its three vertices |
| TetSurface.KeepsSurfaceExactly | src/mesh.cpp:533-569 | on any mesh exactly the faces are kept that no other element has if and only if every face of every duplicated element is shared with an element that has another fourth vertex |
| TetSurfaceClosed.KeepsSurfaceUnlessDuplicated | src/mesh.cpp:533-569 | if no face belongs to three elements, exactly those faces are kept if and only if there are no duplicates |
| TetSurface.MeshVol.SaveVertices | src/mesh.cpp:570-588 | numbers the vertices of kept faces in order and copies them |
| TetSurface.MeshVol.SaveFaces | src/mesh.cpp:589-603 | lists the kept faces with renumbered vertices |
| TetSurface.MeshVol.MakeTetSurf | src/mesh.cpp:531-604 | the whole extraction |
| TetSurface.MeshVol.UpdateSurfVert | src/mesh.cpp:401-409 | after vertices moved, the surface vertices are the moved ones |
| TetSurface.NumberedBijection | src/mesh.cpp:570-588 | vidx is a bijection from the surface vertices onto 0..n-1 and -1 elsewhere |
| TetSurfaceClosed.SurfaceIsClosed | src/mesh.cpp:531-604 | if no face belongs to three elements, every edge lies in an even number of surface triangles |
| TetSurfaceClosed.SurfaceIsOriented | src/mesh.cpp:531-604 | if elements that share a face orient it oppositely, every edge is run through equally often in both directions |
| TetSurfaceVolume.FaceLooksOut | src/mesh.cpp:26-28 | the vertex that a face leaves out lies on the inner side of the face: its corners run counter-clockwise seen from outside |
| TetSurfaceVolume.SurfaceVolume | src/mesh.cpp:531-604 | under the same conditions the volume that the surface triangles enclose is the sum of the signed volumes of the elements |
| Spill.SpillingPreservesMeaning | src/ir_rewriter.cpp:22-38 | for every program, every choice of operands to spill and every fuel: from states that agree on the original variables the program and its rewriting both run on or both end, with the same output and the same variables |
| Spill.SpilledProgram | src/ir_rewriter.cpp:22-38 | the same for whole runs: every end of one is an end of the other |
| Spill.SpillExprWorks | src/flatten.cpp:93-118 | running the spilled assignments and then the rewritten expression gives the value of the expression and touches only fresh temporaries |
| Spill.UnchangedSpillsNothing | src/ir_rewriter.cpp:262-327 | an expression that comes back unchanged has spilled nothing, so returning the old node loses no statement |
| SpillShape.SpillExprSpills | src/flatten.cpp:93-118 | every operand that is chosen, and no other, is replaced by a temporary of its own, which a spilled assignment gives that operand as its value |
| SpillShape.ProgramSpilled | src/ir_rewriter.cpp:22-38 | so in every form of statement and every position: values, conditions, bounds, loop conditions, printed expressions and actuals |
| SpillShape.RewrittenIsFlat | src/ir_rewriter.cpp:22-38 | if operands that are operators are always chosen, the rewritten program has no operator below an operator anywhere |
| IR.LoopSums | src/backend/llvm/llvm_backend.cpp:1219-1258 | `for v in 0:n { s += v }` adds n(n-1)/2 to s |
| IR.WhileCounts | src/backend/llvm/llvm_backend.cpp:1322-1356 | `while (0 < v) { print v; v = v - 1; }` prints v down to 1 and takes exactly v iterations |
| Spill.IRRewriter.RewriteStmt | src/ir_rewriter.cpp:22-38 | places what is still spilled before the statement |
| Spill.IRRewriter.GetSpilledStmts | src/ir_rewriter.cpp:552-559 | hands out the spilled statements and forgets them |
| Spill.IRRewriter.RewriteExpr | src/flatten.cpp:93-118 | appends the spilled assignments in order of evaluation |
| Spill.IRRewriter.Visit | src/ir_rewriter.cpp:202-359 | dispatches to the visits, each of which leaves the rewriting of its statement |
| Spill.IRRewriter.VisitIf | src/ir_rewriter.cpp:262-281 | spills of the condition go before the whole statement |
| Spill.IRRewriter.VisitForRange | src/ir_rewriter.cpp:283-298 | spills of the bounds go before the loop |
| Spill.IRRewriter.VisitWhile | src/ir_rewriter.cpp:310-327 | spills of the condition run before the loop and again at the end of every iteration |
| CallInlining.InliningPreservesMeaning | src/inline.cpp:79-149 | for every program and every choice of calls: the program and its inlining both run on or both end, with the same output and the same caller variables |
| CallInlining.InlinedCallMeansCall | src/inline.cpp:104-149 | an inlined call has the effect of the by-value call |
| InlineShape.ProgramInlined | src/inline.cpp:79-149 | every chosen call is replaced by the body of its callee, with temporaries around it if need be, and nothing else changes |
| InlineShape.NoCallsLeft | src/inline.cpp:79-149 | inlining all calls of a program whose callees call nothing leaves no call |
| InlineCalls.ArgumentReplaced | src/var_replace_rewriter.cpp:132-185 | an argument that is not written can be replaced by an expression whose variables are not written |
| InlineCalls.ResultReplaced | src/var_replace_rewriter.cpp:8-56 | a result that is assigned before it is read can be replaced by a variable that does not occur |
| Inline.DependsOnAssigned | src/inline.cpp:79-149 | a body that reads only what is assigned does the same from states that agree there |
| CallInlining.ReadBeforeAssigned | src/inline.cpp:121-140 | a callee that adds to its result before assigning it is inlined wrongly: from any state the call leaves 1 and the inlined body adds 1 |
| CallInlining.CallOneMore | src/inline.cpp:121-140 | x = f(x) with f adding one: the call adds one to x, whatever it was |
| CallInlining.StagingNeeded | src/inline.cpp:121-140 | without the temporary the inlined body would leave 2, whatever x was |
| CallInlining.CallRewriter.VisitCall | src/inline.cpp:104-149 | replaces parameters and results, or leaves the call |
| CallInlining.CallRewriter.ReplaceParameters | src/inline.cpp:112-116 | one replacement per parameter, in order |
| CallInlining.CallRewriter.ReplaceResults | src/inline.cpp:121-140 | results are replaced by their targets, through a temporary if an actual mentions the target |
| Reorder.HilbertReorder | src/reorder.cpp:104-112 | the ordering is the permutation that ranks vertices by key and, among equal keys, by old id |
| Reorder.SortedAscends | src/reorder.cpp:70-76 | sorting ascends strictly by key and id and permutes the vertices |
| Reorder.CreateIdTranslationMapping | src/reorder.cpp:78-86 | entry of an old id is its new place |
| Reorder.ReorderEndpoints | src/reorder.cpp:230-235 | every endpoint becomes the new id of its vertex, in place |
| Reorder.ReorderFieldData | src/reorder.h:35-50 | every element moves to its new place with all its components, and nothing behind them changes |
| Reorder.ComponentMoved | src/reorder.h:42-47 | component x of element i goes from place i*dim+x to place j*dim+x, j being the new place of the element |
| Reorder.ReorderVertexSet | src/reorder.cpp:237-250 | read through any endpoint of any edge, every field of any component count has the value it had |
| LuleshForces.Domain.CalcForceForNodes | apps/lulesh/lulesh-serial.cc:977-989 | the force fields hold the stress and hourglass forces of the mesh, whatever they held before, and each component adds up to zero, also where the program exits |
| LuleshWork.PressureWork | apps/lulesh/lulesh-serial.cc:977-989 | on a mesh of parallelepipeds with a velocity that is linear in space, the power of the computed forces is (p + q) times the rate of expansion times the volume, summed over the elements |
| LuleshWork.InternalPower | apps/lulesh/lulesh-serial.cc:977-989 | on any mesh and for any velocity it is the power of the stress forces on the corners of their elements, less what the hourglass forces take |
| LuleshForces.Domain.CalcVolumeForceForElems | apps/lulesh/lulesh-serial.cc:939-973 | the program exits exactly if the shape of an element or its relative volume is not positive, in the first case before hourglass forces are added |
| LuleshForces.Domain.IntegrateStressForElems | apps/lulesh/lulesh-serial.cc:511-551 | computes the volumes of all elements from their shapes and scatters their stress forces; the sum over all nodes does not change, on any mesh |
| LuleshForces.Domain.CalcFBHourglassForceForElems | apps/lulesh/lulesh-serial.cc:675-874 | scatters the hourglass forces of all elements; the sum over all nodes does not change, on any mesh |
| LuleshForces.Domain.CalcHourglassControlForElems | apps/lulesh/lulesh-serial.cc:879-935 | adds hourglass forces if the coefficient is positive; fails exactly when some element has no volume |
| LuleshWork.HourglassDissipates | apps/lulesh/lulesh-serial.cc:675-874 | the hourglass forces take from every motion the power hgcoef * 0.01 * ss * mass / cbrt(volume) times a sum of squares, summed over the elements |
| LuleshWork.NoHourglassForce | apps/lulesh/lulesh-serial.cc:675-874 | a velocity that is linear in space meets no hourglass force, on any element whose own volume is used |
| LuleshWork.GammaShapes | apps/lulesh/lulesh-serial.cc:690-722 | the four hourglass shapes are the products of two, and of all three, of the positions of the nodes on the reference element |
| LuleshForces.TotalScatterAll | apps/lulesh/lulesh-serial.cc:495-551 | scattering forces that cancel within every element leaves the sum over all nodes unchanged |
| LuleshForces.ScatterAllAt | apps/lulesh/lulesh-serial.cc:495-551 | a node receives the local forces of exactly its corners in all elements |
| HexGeometry.SumElemFaceNormal | apps/lulesh/lulesh-serial.cc:398-431 | adds a quarter of the area vector to the four nodes of a face |
| HexGeometry.CalcElemNodeNormals | apps/lulesh/lulesh-serial.cc:436-490 | the node normals of an element |
| HexGeometry.NormalsCancel | apps/lulesh/lulesh-serial.cc:436-490 | they add up to zero for any eight points |
| Parallelepipeds.AffineNormals | apps/lulesh/lulesh-serial.cc:436-490 | for parallelepipeds they are the derivatives of the shape functions |
| HexGeometry.VoluDer | apps/lulesh/lulesh-serial.cc:556-583 | the volume derivative at a node |
| HexGeometry.CalcElemVolumeDerivative | apps/lulesh/lulesh-serial.cc:588-627 | the volume derivatives at all nodes, with the six neighbours of each |
| HexGeometry.VolumeGradient | apps/lulesh/lulesh-serial.cc:588-627 | they are the gradient of one volume of the element |
| HexGeometry.OneVolume | apps/lulesh/lulesh-serial.cc:588-627 | the volume can be taken from any component |
| HexGeometry.SlopesCancel | apps/lulesh/lulesh-serial.cc:588-627 | they add up to zero |
| Parallelepipeds.AffineDerivatives | apps/lulesh/lulesh-serial.cc:588-627 | for parallelepipeds they are the derivatives of the shape functions |
| Parallelepipeds.AffineVolume | apps/lulesh/lulesh-serial.cc:588-627 | and their volume is the determinant of the edges |
| ShapeFunctions.CalcElemShapeFunctionDerivatives | apps/lulesh/lulesh-serial.cc:306-393 | the derivatives of the shape functions, from the cofactors of the slopes at the centre, and eight times the determinant of the slopes, expanded along the second axis |
| ShapeFunctions.LinearFieldDerivatives | apps/lulesh/lulesh-serial.cc:306-393 | on any element they differentiate every field that is linear in space exactly, up to the volume as a factor |
| ShapeFunctions.ShapeVolumeGradient | apps/lulesh/lulesh-serial.cc:306-393 | they are the gradient of the computed volume |
| ShapeFunctions.ParallelepipedVolume | apps/lulesh/lulesh-serial.cc:306-393 | for parallelepipeds, wherever they are, that volume is the determinant of their edges |
| ShapeFunctions.CalcElemVelocityGradient | apps/lulesh/lulesh-serial.cc:1161-1217 | half of the products suffice, since opposite nodes have opposite derivatives |
| ShapeFunctions.ElementStrain | apps/lulesh/lulesh-serial.cc:1269-1281 | the strain rates of an element are taken where its nodes were half a time step ago |
| ShapeFunctions.StepForward | apps/lulesh/lulesh-serial.cc:1269-1275 | from there half a time step leads to where the nodes are |
| ShapeFunctions.LinearStrainRate | apps/lulesh/lulesh-serial.cc:1161-1217 | the strain rates of a velocity that is linear in space are the symmetric part of its gradient, on every element with a volume |
| Lulesh.SumElemStressesToNodeForces | apps/lulesh/lulesh-serial.cc:495-506 | stress times normal, negated |
| Lulesh.StressForcesCancel | apps/lulesh/lulesh-serial.cc:495-506 | forces from cancelling normals cancel |
| LuleshWork.StressWork | apps/lulesh/lulesh-serial.cc:495-506 | the power of the stress forces of a parallelepiped on a velocity that is linear in space is minus stress times strain rate times volume |
| Lulesh.ModeCancels | apps/lulesh/lulesh-serial.cc:675-874 | an hourglass mode adds up to zero |
| Lulesh.CalcElemFBHourglassForce | apps/lulesh/lulesh-serial.cc:632-670 | two products with the table of modes, through the four mode velocities |
| Lulesh.HourglassForcesCancel | apps/lulesh/lulesh-serial.cc:632-670 | forces from cancelling modes cancel |
| LuleshWork.HourglassPower | apps/lulesh/lulesh-serial.cc:632-670 | the power of the hourglass forces is the coefficient times the sum of the squares of the mode velocities |

## Left out

- Word width: words are natural numbers, so nDims*nBits is not bounded by 64; shifts that would lose bits of a machine word and the undefined shift by the full width are not captured.
- HilbertOrder.HilbertCmp: hilbert_cmp_work is modelled with the bounds hilbert_cmp passes; its other callers and the IEEE and box operations of the file are not modelled.
- HilbertOrder.HilbertIncr: the last point has no successor; the contract states what the code leaves in coord there.
- PathIndexBuilding.PathIndexBuilder.BuildSegmented: set bindings are fixed for the lifetime of a builder, the ordered map is a list of entries searched for an equivalent key, and its requests come from a family whose keys can be compared and in which every form stands for one relation; PathIndexBuilding.SharedEntry, MemoTable.OppositeWiring and PathExpressions.IncomparableKeys show why.
- PathIndices.BuildVv: offsets that the single remainder wraps wrongly are excluded; Grids.WrapsEverywhere states which these are.
- Path expressions: reversing an expression, heterogeneous tensors on top of an index and the printing of expressions.
- Locations.Loc: the search does not check where the row ends, so its callers must know that the neighbour is stored; the locations of compiled code are modelled as the values the emitted statements compute.
- StencilNorm.NormalizationIsExact: a kernel is the list of its matrix writes; writes with `=` are rewritten by the model but the theorem is about `+=`.
- StencilAddressing.BuildStencil: writes to the stencil are taken in program order; collecting them from nested statements is not modelled.
- Grids: grid edges and the edge directions of grid sets; Set::add, removal and growth of sets.
- Csr.ConvertToCSR: shapes that are read behind the buffer are excluded, which Csr.ReadsInBounds shows to be the only ones; values are real numbers, so neither NaN in the sort nor rounding appears; column sums do not depend on the order of equal columns.
- TetSurface.MeshVol.MakeTetSurf: called on a mesh whose surface has not been made yet and whose vertices all belong to elements; the hexahedral variant is not modelled.
- Reorder.HilbertReorder: the curve index of a vertex is an arbitrary key; reading positions and mapping them to the lattice is floating point. Edge reordering is not modelled.
- Spill.SpillingPreservesMeaning: expressions are integer constants, variables, sums, differences, products and comparisons; tensors, index expressions and the choice of operands to spill are parameters or left out.
- CallInlining.InliningPreservesMeaning: callees read no variables of the caller, assign results before reading them and write neither arguments nor foreign variables; external functions, intrinsics and in-out arguments are not modelled.
- Inlining of map statements: only the locations, the stencil addresses and the loop nest of a map are modelled, not the substitution of the kernel.
- ShapeFunctions.ElementStrain: of CalcKinematicsForElems only the strain rates of one element are modelled, not the loop over the elements, the relative volume and the characteristic length; an element without volume, where the code divides by zero, is excluded.
- LuleshForces.Domain.IntegrateStressForElems: coordinates and velocities are not updated.
- LuleshForces.Domain.CalcHourglassControlForElems: the cube root is a parameter that is not zero on positive numbers; the exit of the program is a result.
- Real numbers: all force computations are exact; rounding is not modelled.
- Lowering of index expressions, types, intrinsics, loading, solvers, backends and visualization.
