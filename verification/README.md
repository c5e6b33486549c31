# Tensor field core of the tensor-visualisation modules

This project is a Dafny model of the core of the `TensorField3D` data structure. The structure is a regular 3-D grid of 3×3 tensors, together with a metadata table of per-voxel attributes. The model also covers the generic helpers the structure relies on.

- **Metadata initialisation.** At construction the field makes sure its metadata table holds the six standard attributes. These are the three eigenvalues (`Lambda1..3`) and the major, intermediate and minor eigenvectors.
  - Each voxel is decomposed by an eigen solver. A zero tensor gives three zero pairs. Otherwise the pairs are ordered by decreasing eigenvalue.
  - Each attribute is added only if it is missing.
- **Data maps.** `computeDataMaps` sets the data range and value range of the three eigenvalue maps to the min/max of each eigenvalue column. It sets the eigenvector maps to the smallest and largest component over each eigenvector column. The vector reductions start from the largest and lowest `double`.
- **Geometry.** The field provides:
  - the 4×4 model matrix built from basis and offset;
  - the normalised position of a voxel, with axes of extent below two collapsed to a slice coordinate;
  - the normalised screen coordinates of every voxel, or nothing for a grid with a zero dimension.
- **Volume export.** According to its doc comment, `getVolumeRepresentation` splits the tensors into three vector volumes, one per tensor column. The code does this only for the first volume. The second and third volumes are written at voxel (x, y, y) (see "## Findings"), and the model holds both the code as written and the corrected split.
- **Small operations.** The model also covers the count of defined entries of the binary mask, and the deep copy.
- **Attribute toggling.** `AddRemoveMetaData` adds or drops one attribute column, selected by the hash of its identifier.
- **Helpers.** The helpers cover:
  - clamped normalise/denormalise;
  - element-wise division;
  - squared distance;
  - intersection and union of sorted ranges;
  - concatenation;
  - removal of adjacent duplicates;
  - list printing;
  - the conversion of a VTK bounding box into extent and offset.

Modules:

- `Wrappers`: `Option` and `Result`.
- `Geometry`: `Vec3` and the column-major `Mat3`.
- `IndexMapping`: the linear index `x + dx·(y + dy·z)` of a grid cell, and its inverse.
- `MetaData`: the standard attributes and the metadata table.
- `Decomposition`: per-voxel eigen decomposition and `initializeDefaultMetaData`.
- `TensorField`: the field record, construction, deep copy, model matrix, positions and the defined-entry count.
- `DataMaps`: `computeDataMaps`.
- `Volumes`: `getVolumeRepresentation`, both as written and corrected.
- `AttributeUtil`: the metadata add/drop toggle.
- `VtkUtil`: bounds to extent and offset.
- `Misc`: the generic helpers.

Floating point values are modelled as reals. The eigen solver, the spacing and the grid geometry are parameters.

Behaviour of the code that the model keeps:

- Eigen pairs are ordered by decreasing signed eigenvalue, using `std::greater` on the eigenvalues (tensorfield3d.cpp:243-250).
- Symmetry of the tensors is neither assumed nor checked. The general eigen solver is used and only the real parts are kept (tensorfield3d.cpp:239-241).
- A metadata table that holds only some of the six attributes is completed, not rejected. Each missing attribute is added and each present one is kept unchanged (tensorfield3d.cpp:285-290).
- The length of the tensor array is not checked against the voxel count (tensorfield3d.cpp:271-272). The derived buffers are sized by the voxel count (tensorfield3d.cpp:261-267).
  - A shorter array leaves the remaining voxels with zero entries.
  - A longer array writes past the buffers. The model therefore requires a length of at most the voxel count, unless all six attributes are already present and the loop is skipped (tensorfield3d.cpp:218-225).
- The code reports failure in two places, and the model keeps both:
  - The screen-coordinate query returns no result for a grid with a zero dimension (tensorfield3d.cpp:309-312).
  - `squaredDistance` throws `std::domain_error` for vectors of different lengths (misc.h:117-118). The model returns a `Failure` instead.
- `computeDataMaps` dereferences `min_element`/`max_element` of each eigenvalue column (tensorfield3d.cpp:331-342). An empty column is undefined behaviour, so the model requires non-empty columns.
- The multi-vector `intersection` and `union_set` read `vecs[0]` unconditionally (misc.h:137, 153). The model therefore requires a non-empty list.
- The doc comment of `getVolumeRepresentation` gives the first volume as "xx, yz, and zx" (tensorfield3d.cpp:101). For the first tensor column this should read xx, yx, zx. The corrected model follows the comment's stated intent of one tensor column per volume.

## Model

| member | source | states |
|---|---|---|
| Misc.NormalizeValue | tensorvis/tensorvisbase/include/modules/tensorvisbase/util/misc.h:74-79 | the result lies in [0, 1]; it is 1 exactly when the value reaches the maximum and 0 exactly when it is at or below the minimum (and below the maximum); inside the interval it is the fraction that maps back onto the value |
| Misc.DenormalizeValue | tensorvis/tensorvisbase/include/modules/tensorvisbase/util/misc.h:81-86 | fractions at or below 0 give the minimum, at or above 1 the maximum; with ordered bounds the result stays inside them and hits an end exactly when the fraction is clamped |
| Misc.DenormalizeNormalize | tensorvis/tensorvisbase/include/modules/tensorvisbase/util/misc.h:74-86 | denormalising the normalised value of an interior point returns the point |
| Misc.NormalizeDenormalize | tensorvis/tensorvisbase/include/modules/tensorvisbase/util/misc.h:74-86 | normalising the denormalised value of an interior fraction returns the fraction |
| Misc.NormalizeMonotone | tensorvis/tensorvisbase/include/modules/tensorvisbase/util/misc.h:74-79 | normalisation preserves the order of values for any bounds |
| Misc.Divide | tensorvis/tensorvisbase/include/modules/tensorvisbase/util/misc.h:88-106 | same length as the input and every element times the divisor gives the input element back |
| Misc.SumOfSquares | tensorvis/tensorvisbase/include/modules/tensorvisbase/util/misc.h:119-120 | the inner product of squared differences, accumulated from zero, is never negative |
| Misc.SumOfSquaresZero | tensorvis/tensorvisbase/include/modules/tensorvisbase/util/misc.h:115-121 | the accumulated sum of squared differences is zero if and only if the two points are equal |
| Misc.SumOfSquaresSymmetric | tensorvis/tensorvisbase/include/modules/tensorvisbase/util/misc.h:115-121 | the sum of squared differences does not depend on the order of the two points |
| Misc.SquaredDistance | tensorvis/tensorvisbase/include/modules/tensorvisbase/util/misc.h:115-121 | fails exactly when the lengths differ; otherwise the distance is non-negative and zero exactly for equal points |
| Misc.SquaredDistanceSymmetric | tensorvis/tensorvisbase/include/modules/tensorvisbase/util/misc.h:115-121 | swapping the points changes neither success nor the distance |
| Misc.SetIntersection | tensorvis/tensorvisbase/include/modules/tensorvisbase/util/misc.h:141-142 | on sorted inputs the result is sorted, strictly so for strictly sorted inputs, and holds exactly the elements in both inputs |
| Misc.SetUnion | tensorvis/tensorvisbase/include/modules/tensorvisbase/util/misc.h:167-172 | on sorted inputs the result is sorted, strictly so for strictly sorted inputs, and holds exactly the elements in either input |
| Misc.Intersection | tensorvis/tensorvisbase/include/modules/tensorvisbase/util/misc.h:135-147 | folding the pairwise intersection over a non-empty list of sorted vectors yields a sorted vector holding exactly the elements present in every vector |
| Misc.UnionAll | tensorvis/tensorvisbase/include/modules/tensorvisbase/util/misc.h:151-163 | folding the pairwise union over a non-empty list of sorted vectors yields a sorted vector holding exactly the elements present in some vector |
| Misc.Concatenate | tensorvis/tensorvisbase/include/modules/tensorvisbase/util/misc.h:176-182 | the result starts with the first vector and continues with the second |
| Misc.FlattenAppend | tensorvis/tensorvisbase/include/modules/tensorvisbase/util/misc.h:192-205 | flattening a list with one more vector appends that vector to the flattened list |
| Misc.FlattenLength | tensorvis/tensorvisbase/include/modules/tensorvisbase/util/misc.h:197-199 | the flattened length is the total the source reserves |
| Misc.ConcatenateAll | tensorvis/tensorvisbase/include/modules/tensorvisbase/util/misc.h:192-205 | the loop yields all vectors joined in order (empty for no vectors) with the reserved total length |
| Misc.Unique | tensorvis/tensorvisbase/include/modules/tensorvisbase/util/misc.h:184-190 | the result is a subsequence of the input with no two equal neighbours, keeps the first element, and has the same elements as the input |
| Misc.UniqueIsRunHeads | tensorvis/tensorvisbase/include/modules/tensorvisbase/util/misc.h:184-190 | the result is exactly the run heads of the input: the first element and every element that differs from its predecessor, so only adjacent repeats are removed (a non-adjacent repeat stays) |
| Misc.UniqueFixesDeduplicated | tensorvis/tensorvisbase/include/modules/tensorvisbase/util/misc.h:184-190 | an input without adjacent duplicates comes back unchanged |
| Misc.UniqueIdempotent | tensorvis/tensorvisbase/include/modules/tensorvisbase/util/misc.h:184-190 | removing adjacent duplicates twice is the same as once |
| Misc.StreamedIsJoinThenSeparator | tensorvis/tensorvisbase/include/modules/tensorvisbase/util/misc.h:217-219 | streaming every element followed by ", " equals the ", "-joined elements plus one trailing ", " |
| Misc.ToString | tensorvis/tensorvisbase/include/modules/tensorvisbase/util/misc.h:207-227 | an empty list prints as "[ ]"; otherwise the elements joined by ", " between "[ " and " ]", i.e. the trailing separator replaced by " ]" |
| VtkUtil.ExtentFromBounds | misc/vtk/include/inviwo/vtk/util/vtkutil.h:51-53 | each axis extent is that axis's upper bound minus its lower bound |
| VtkUtil.OffsetFromBounds | misc/vtk/include/inviwo/vtk/util/vtkutil.h:55-57 | each axis offset is that axis's lower bound |
| VtkUtil.OffsetPlusExtentIsUpperCorner | misc/vtk/include/inviwo/vtk/util/vtkutil.h:51-57 | offset plus extent is the upper corner of the box |
| VtkUtil.ExtentNonNegative | misc/vtk/include/inviwo/vtk/util/vtkutil.h:51-53 | an extent is non-negative exactly when the axis bounds are ordered |
| AttributeUtil.AddRemove | tensorvis/tensorvisbase/include/inviwo/tensorvisbase/util/attributeutil.h:47-64 | a foreign id changes nothing; a matching id makes the column present exactly when the flag is set; other columns are untouched, an existing column is never recomputed, a new one holds the calculation on the old table |
| AttributeUtil.AddRemoveIdempotent | tensorvis/tensorvisbase/include/inviwo/tensorvisbase/util/attributeutil.h:47-64 | repeating a toggle with the same id and flag changes nothing further |
| AttributeUtil.DropThenAddRestores | tensorvis/tensorvisbase/include/inviwo/tensorvisbase/util/attributeutil.h:47-64 | dropping a computed column and adding it again restores the table |
| AttributeUtil.OtherAttributeUnaffected | tensorvis/tensorvisbase/include/inviwo/tensorvisbase/util/attributeutil.h:51 | a toggle addressed to another attribute's identifier leaves the table unchanged |
| IndexMapping.SizeIsPositive | tensorvis/tensorvisbase/src/datastructures/tensorfield3d.cpp:309-312 | the voxel count is positive exactly when no dimension is zero |
| IndexMapping.LinearInRange | tensorvis/tensorvisbase/src/datastructures/tensorfield3d.cpp:316-318 | the linear index of a grid cell is below the voxel count |
| IndexMapping.FromLinearInverse | tensorvis/tensorvisbase/src/datastructures/tensorfield3d.cpp:297 | mapping a cell to its linear index and back gives the cell |
| IndexMapping.LinearInverse | tensorvis/tensorvisbase/src/datastructures/tensorfield3d.cpp:297 | every index below the voxel count maps to a grid cell whose linear index is that index |
| IndexMapping.LinearInjective | tensorvis/tensorvisbase/src/datastructures/tensorfield3d.cpp:316-318 | two grid cells share a linear index if and only if they are the same cell |
| IndexMapping.Bijection | tensorvis/tensorvisbase/src/datastructures/tensorfield3d.cpp:297-316 | on a non-degenerate grid, cells and indices below the voxel count correspond one to one |
| Decomposition.SortDescending | tensorvis/tensorvisbase/src/datastructures/tensorfield3d.cpp:243-250 | the reordered triple has non-increasing eigenvalues |
| Decomposition.SortDescendingPermutes | tensorvis/tensorvisbase/src/datastructures/tensorfield3d.cpp:243-250 | the reordered triple holds the same eigen pairs as the solver's |
| Decomposition.SortFixesDescending | tensorvis/tensorvisbase/src/datastructures/tensorfield3d.cpp:243-250 | an already descending triple is left as it is |
| Decomposition.Decompose | tensorvis/tensorvisbase/src/datastructures/tensorfield3d.cpp:230-251 | a zero tensor gives three zero pairs; every result is ordered by decreasing eigenvalue |
| Decomposition.DecomposeKeepsSolverPairs | tensorvis/tensorvisbase/src/datastructures/tensorfield3d.cpp:239-250 | for a non-zero tensor the decomposition is a permutation of the solver's pairs |
| Decomposition.ZeroTensorIgnoresSolver | tensorvis/tensorvisbase/src/datastructures/tensorfield3d.cpp:231-237 | the zero tensor's decomposition does not depend on the solver |
| Decomposition.DecomposeAll | tensorvis/tensorvisbase/src/datastructures/tensorfield3d.cpp:269-283 | the loop over the tensors leaves at every voxel index that voxel's decomposition, zero pairs beyond the tensors |
| Decomposition.DeriveEigenColumns | tensorvis/tensorvisbase/src/datastructures/tensorfield3d.cpp:253-283 | the six buffers are exactly the six eigen columns of the voxel decompositions |
| Decomposition.InitializeDefaultMetaData | tensorvis/tensorvisbase/src/datastructures/tensorfield3d.cpp:216-293 | a complete table is returned unchanged; otherwise the result holds all six attributes, keeps every existing column, and each added column is the derived eigen column of the right type and voxel count |
| Decomposition.InitializeIdempotent | tensorvis/tensorvisbase/src/datastructures/tensorfield3d.cpp:218-225 | initialising an initialised table changes nothing |
| Decomposition.EntryDependsOnlyOnVoxel | tensorvis/tensorvisbase/src/datastructures/tensorfield3d.cpp:271-283 | a derived entry depends only on the tensor of its own voxel |
| Decomposition.DerivedEigenValuesOrdered | tensorvis/tensorvisbase/src/datastructures/tensorfield3d.cpp:243-250 | derived eigenvalue columns satisfy Lambda1 ≥ Lambda2 ≥ Lambda3 at every voxel |
| Decomposition.ZeroTensorGivesZeroEntries | tensorvis/tensorvisbase/src/datastructures/tensorfield3d.cpp:231-237 | a zero tensor yields zero entries in every derived column |
| TensorField.Construct | tensorvis/tensorvisbase/src/datastructures/tensorfield3d.cpp:10-48 | every constructor stores its arguments and leaves a metadata table holding all six attributes, as initialisation defines it |
| TensorField.ConstructedFieldIsComplete | tensorvis/tensorvisbase/src/datastructures/tensorfield3d.cpp:10-17 | a field built without metadata has exactly the six standard attributes, each typed with one entry per voxel |
| TensorField.DeepCopy | tensorvis/tensorvisbase/src/datastructures/tensorfield3d.cpp:205-212 | the copy equals the original in every field |
| TensorField.BasisAndOffset | tensorvis/tensorvisbase/src/datastructures/tensorfield3d.cpp:139-167 | the upper-left 3×3 block is the basis, the last column the offset, the last row (0, 0, 0, 1) |
| TensorField.BasisAndOffsetMapsPoints | tensorvis/tensorvisbase/src/datastructures/tensorfield3d.cpp:139-167 | the model matrix sends a point p to basis·p + offset with homogeneous coordinate 1 |
| TensorField.NormalizedVolumePosition | tensorvis/tensorvisbase/src/datastructures/tensorfield3d.cpp:295-301 | an axis with fewer than two voxels gets the slice coordinate; the index of any grid cell is placed at that cell's position (coordinate times spacing on the other axes) |
| TensorField.PositionOfCell | tensorvis/tensorvisbase/src/datastructures/tensorfield3d.cpp:295-301 | at a cell's linear index, each axis is the slice coordinate for extent below two and the cell coordinate times the spacing otherwise |
| TensorField.NormalizedScreenCoordinates | tensorvis/tensorvisbase/src/datastructures/tensorfield3d.cpp:303-324 | no result exactly when a dimension is zero; otherwise one position per voxel, each the normalised position of its index, and the loops write each index once in increasing order |
| TensorField.Int32Cast | tensorvis/tensorvisbase/src/datastructures/tensorfield3d.cpp:202 | the cast lies in the 32-bit range, is the identity inside it, and agrees with the count modulo 2^32 |
| TensorField.NumDefinedEntries | tensorvis/tensorvisbase/src/datastructures/tensorfield3d.cpp:201-203 | the number of mask entries equal to 1, cast to int; between 0 and the mask length when that length fits |
| DataMaps.MinIndex | tensorvis/tensorvisbase/src/datastructures/tensorfield3d.cpp:331-342 | the position std::min_element finds: the first position holding a least element |
| DataMaps.MaxIndex | tensorvis/tensorvisbase/src/datastructures/tensorfield3d.cpp:331-342 | the position std::max_element finds: the first position holding a greatest element |
| Geometry.Vec3.MinComponent | tensorvis/tensorvisbase/src/datastructures/tensorfield3d.cpp:344 | the `min_f` lambda: at most every component of the vector, and equal to one of them |
| Geometry.Vec3.MaxComponent | tensorvis/tensorvisbase/src/datastructures/tensorfield3d.cpp:345 | the `max_f` lambda: at least every component of the vector, and equal to one of them |
| DataMaps.RunningMin | tensorvis/tensorvisbase/src/datastructures/tensorfield3d.cpp:344-355 | the vector reduction is at most the start value and every vector's smallest component, and equals one of them |
| DataMaps.RunningMax | tensorvis/tensorvisbase/src/datastructures/tensorfield3d.cpp:344-355 | the vector reduction is at least the start value and every vector's largest component, and equals one of them |
| DataMaps.RunningMinIsMinOfComponents | tensorvis/tensorvisbase/src/datastructures/tensorfield3d.cpp:344-355 | the running minimum equals the least element of the start value followed by every vector's smallest component |
| DataMaps.RunningMaxIsMaxOfComponents | tensorvis/tensorvisbase/src/datastructures/tensorfield3d.cpp:344-355 | the running maximum equals the greatest element of the start value followed by every vector's largest component |
| DataMaps.ComputeDataMaps | tensorvis/tensorvisbase/src/datastructures/tensorfield3d.cpp:326-373 | only the six maps change; data and value ranges agree; each eigenvalue range bounds its column and is attained in it; each eigenvector range is exactly the least and the greatest of its sentinel (max double, lowest double) together with every component of every vector in its column, so it bounds every component and an empty column gives the sentinels |
| DataMaps.VectorReductionsAreExtremes | tensorvis/tensorvisbase/src/datastructures/tensorfield3d.cpp:347-372 | for each of the three eigenvector columns, the minimum and maximum folds started at the sentinels equal the least and greatest of the sentinel and all components |
| DataMaps.ComputeDataMapsIdempotent | tensorvis/tensorvisbase/src/datastructures/tensorfield3d.cpp:326-373 | recomputing the maps gives the same field |
| DataMaps.EigenValueRangeOrdered | tensorvis/tensorvisbase/src/datastructures/tensorfield3d.cpp:331-342 | every eigenvalue range has its lower end at or below its upper end |
| DataMaps.EigenVectorRangeOrdered | tensorvis/tensorvisbase/src/datastructures/tensorfield3d.cpp:347-372 | an eigenvector range is ordered exactly when its column is non-empty |
| Volumes.VolumeRepresentationAsWritten | tensorvis/tensorvisbase/src/datastructures/tensorfield3d.cpp:103-129 | the code as written: the first volume holds every tensor's first column at its own voxel; the second and third hold, at (x, y, y), the column of the tensor at (x, y, dz-1) and zero elsewhere |
| Volumes.AsWrittenLosesSecondColumn | tensorvis/tensorvisbase/src/datastructures/tensorfield3d.cpp:119-121 | on a 1×1×2 grid the as-written second volume differs from the second tensor column at (0,0,0) and is zero at (0,0,1) |
| Volumes.DiagonalMismatchBreaksSplit | tensorvis/tensorvisbase/src/datastructures/tensorfield3d.cpp:121-123 | a single voxel where the as-written value differs from the tensor column rules out the column split |
| Volumes.AsWrittenIsNotColumnSplit | tensorvis/tensorvisbase/src/datastructures/tensorfield3d.cpp:91-129 | on the 1×1×2 example the as-written second volume is not the promised column split |
| Volumes.VolumeRepresentation | tensorvis/tensorvisbase/src/datastructures/tensorfield3d.cpp:91-129 | corrected: the k-th volume holds every tensor's k-th column at its own voxel, for k = 0, 1, 2 |
| Volumes.ColumnVolumesDetermineTensors | tensorvis/tensorvisbase/src/datastructures/tensorfield3d.cpp:91-101 | the three column volumes together give back every tensor |

## Left out

- The eigen solver (`Eigen::EigenSolver` and the real-part projections) is a parameter returning three eigen pairs. Its numerics are not modelled.
- The OpenMP parallel loop in `initializeDefaultMetaData` is modelled as a sequential loop. The iterations write disjoint indices.
- `setExtents` (tensorfield3d.cpp:131-137) relies on glm normalisation, which takes square roots. It is not modelled.
- `getBasis`, `getOffset` and `getSpacing` are not part of this model. Basis, offset and spacing are parameters.
- `getDataInfo` and the HTML helpers are presentation code only.
- The copy constructor and `clone` are not modelled separately. They copy the fields, and in a value model that is what `DeepCopy` states.
- `shared_ptr` aliasing is not modelled. The shallow copy and the deep copy are indistinguishable in a value model.
- AttributeUtil.AddRemove: `AddRemoveMetaData::operator()` edits the shared `DataFrame` in place through `dropColumn`/`addColumn` (attributeutil.h:49-60), so every holder of the `shared_ptr` sees the change. The model returns a new table instead, and that sharing is not modelled.
- MetaData.Table holds only the six standard attributes. Other `DataFrame` columns cannot be represented, and neither can `AddRemoveMetaData<T>` for other attribute types.
- `setTensors`, `setMetaData` and the attribute accessors are plain field access.
- `hcl2rgb`/`rgb2hcl`, `nthRoot` and `euclideanDistance` are floating-point colour and root helpers outside the modelled core.
- `numberOfElements` (misc.h:72) has no member of its own. It is the same product of the three dimensions as `IndexMapping.Size`.
- The VTK ingestion processor, the contour tree colour mapper, `vtkProgressBarCallback` and `AddMetaDataProperties` are callers or UI glue, not part of the modelled core.
- Float and double rounding is not modelled. Values are reals, and `DoubleMax` is the exact value of the largest finite double.
- The `int` loop counter in `initializeDefaultMetaData` is not modelled. Grids with more than 2^31 voxels would overflow it.
- `reserve` and `resize` have no observable effect beyond the lengths, which are modelled.
- The volume storage is assumed to be zero-initialised. `Volumes.VolumeRepresentationAsWritten` relies on this for voxels the code never writes.
- `IndexMapper3D` is not part of this model. It is assumed to use the row-major linear index `x + dx·(y + dy·z)`.
- Misc.Divide: requires a non-zero divisor. Reals have no infinity or NaN for the IEEE result of a division by zero.
- Decomposition.SortDescending: ties between equal eigenvalues keep the solver's order. The source's ordering helper does not promise any tie order.
- MetaData.IdentifierHash: `util::constexpr_hash` is modelled by an injective numbering of the six identifiers. A hash collision is not modelled.
- Misc.SetIntersection, Misc.SetUnion: the bodies follow the merge loops of `std::set_intersection`/`std::set_union` step by step, so repeated elements get the standard multiplicities. The contracts state only order and membership, not those multiplicities. Both are stated for integer elements.
- TensorField.NormalizedScreenCoordinates: the `LogError` diagnostic for a zero-sized dimension (tensorfield3d.cpp:310) is not modelled. Only the missing result is.
- TensorField.NormalizedScreenCoordinates: the result is stated per linear index. The per-cell form follows from `TensorField.PositionOfCell` and `IndexMapping.Bijection`.
- The `DataMapper` fields other than the data and value ranges are not modelled.
- `getVolumeRepresentation` writes out of range when dy > dz in the code. `Volumes.VolumeRepresentationAsWritten` therefore requires dy ≤ dz (or an empty grid); the corrected version has no such requirement.

## Findings

| source | as written | input that shows it | evidently intended | confidence | as-written member | corrected member |
|---|---|---|---|---|---|---|
| tensorvis/tensorvisbase/src/datastructures/tensorfield3d.cpp:121-123 | the second and third columns are stored at voxel (x, y, y) instead of (x, y, z), so later slices overwrite earlier ones on the diagonal and off-diagonal voxels stay zero (and dy > dz writes out of range) | dims 1×1×2, tensors [second column (1, 0, 0), zero tensor]: voxel (0,0,0) of the second volume ends up zero instead of (1, 0, 0) | every volume stores the k-th column of the tensor at (x, y, z), as the doc comment above the method says | not executed | Volumes.AsWrittenIsNotColumnSplit | Volumes.VolumeRepresentation |
