/**
 The 3D tensor field: a dense grid of 3x3 tensors with its metadata table of
 derived attributes, its placement in space (basis and offset), its cached value
 ranges and its mask of defined voxels. Shared ownership of the tensors and of
 the metadata plays no role in a value model: every copy is the value itself.
 */
module TensorField {
  import opened Wrappers
  import opened Geometry
  import opened IndexMapping
  import opened MetaData
  import opened Decomposition

  /** A `dvec2` range: `x` is the low end, `y` the high end. */
  datatype Range = Range(x: real, y: real)

  /** The parts of a `DataMapper` this model tracks: the data range and the value range. */
  datatype DataMap = DataMap(dataRange: Range, valueRange: Range)

  datatype TensorField3D = TensorField3D(
    dims: Dims,
    tensors: seq<Mat3>,
    metaData: Table,
    basis: Mat3,
    offset: Vec3,
    eigenValueMaps: seq<DataMap>,
    eigenVectorMaps: seq<DataMap>,
    binaryMask: seq<int>)

  /**
   The constructors of the field: the metadata table (empty when the caller
   supplies none) is completed by the derivation pass. Placement and the
   initial data mappers come from the structured-grid base and the host
   framework, so they are parameters here; the binary mask starts empty.
   */
  function Construct(dims: Dims, tensors: seq<Mat3>, metaData: Table, solver: EigenSolver,
                     basis: Mat3, offset: Vec3, initialMap: DataMap): (f: TensorField3D)
    requires AllPresent(metaData) || |tensors| <= Size(dims)
    ensures f.dims == dims && f.tensors == tensors && f.basis == basis && f.offset == offset
    ensures AllPresent(f.metaData)
    ensures f.metaData == InitializeDefaultMetaData(solver, tensors, Size(dims), metaData)
    ensures |f.eigenValueMaps| == 3 && |f.eigenVectorMaps| == 3 && f.binaryMask == []
  {
    TensorField3D(dims, tensors, InitializeDefaultMetaData(solver, tensors, Size(dims), metaData),
                  basis, offset, [initialMap, initialMap, initialMap],
                  [initialMap, initialMap, initialMap], [])
  }

  /** A field built without metadata ends up with all six attributes, each a column
      of the declared element type with one entry per voxel. */
  lemma ConstructedFieldIsComplete(dims: Dims, tensors: seq<Mat3>, solver: EigenSolver,
                                   basis: Mat3, offset: Vec3, initialMap: DataMap)
    requires |tensors| <= Size(dims)
    ensures var f := Construct(dims, tensors, map[], solver, basis, offset, initialMap);
            f.metaData.Keys == Standard &&
            forall a :: a in Standard ==> HasTyped(f.metaData, a) && f.metaData[a].Length() == Size(dims)
  {
  }

  /** `deepCopy`: new storage for tensors and metadata, with equal contents. Storage identity
      is not observable in this value model, so the copy is the field itself. */
  function DeepCopy(f: TensorField3D): (r: TensorField3D)
    ensures r == f
  {
    f
  }

  // ---------------------------------------------------------------------------
  // Placement

  /**
   `getBasisAndOffset`: the 4x4 model matrix in glm's column-major layout,
   `m[i][j]` being column `i`, row `j`.
   */
  function BasisAndOffset(f: TensorField3D): (m: seq<seq<real>>)
    ensures |m| == 4 && forall i :: 0 <= i < 4 ==> |m[i]| == 4
    ensures forall i, j :: 0 <= i < 3 && 0 <= j < 3 ==> m[i][j] == f.basis.At(i, j)
    ensures forall j :: 0 <= j < 3 ==> m[3][j] == f.offset.Get(j)
    ensures forall i :: 0 <= i < 3 ==> m[i][3] == 0.0
    ensures m[3][3] == 1.0
  {
    var b, o := f.basis, f.offset;
    [[b.c0.x, b.c0.y, b.c0.z, 0.0],
     [b.c1.x, b.c1.y, b.c1.z, 0.0],
     [b.c2.x, b.c2.y, b.c2.z, 0.0],
     [o.x, o.y, o.z, 1.0]]
  }

  /** A 4x4 column-major matrix applied to the homogeneous point `(p, 1)`. */
  function TransformPoint(m: seq<seq<real>>, p: Vec3): (r: seq<real>)
    requires |m| == 4 && forall i :: 0 <= i < 4 ==> |m[i]| == 4
    ensures |r| == 4
  {
    seq(4, j requires 0 <= j < 4 =>
      Mul(p.x, m[0][j]) + Mul(p.y, m[1][j]) + Mul(p.z, m[2][j]) + m[3][j])
  }

  /** The model matrix sends a grid-space point `p` to `basis * p + offset`, and keeps
      the homogeneous coordinate at 1: the basis is linear, the offset a translation. */
  lemma BasisAndOffsetMapsPoints(f: TensorField3D, p: Vec3)
    ensures var r := TransformPoint(BasisAndOffset(f), p);
            var q := f.basis.Apply(p).Plus(f.offset);
            r[0] == q.x && r[1] == q.y && r[2] == q.z && r[3] == 1.0
  {
    var b := f.basis;
    assert Mul(p.x, b.c0.x) == b.c0.Scale(p.x).x;
    assert Mul(p.y, b.c1.x) == b.c1.Scale(p.y).x;
    assert Mul(p.z, b.c2.x) == b.c2.Scale(p.z).x;
    assert Mul(p.x, b.c0.y) == b.c0.Scale(p.x).y;
    assert Mul(p.y, b.c1.y) == b.c1.Scale(p.y).y;
    assert Mul(p.z, b.c2.y) == b.c2.Scale(p.z).y;
    assert Mul(p.x, b.c0.z) == b.c0.Scale(p.x).z;
    assert Mul(p.y, b.c1.z) == b.c1.Scale(p.y).z;
    assert Mul(p.z, b.c2.z) == b.c2.Scale(p.z).z;
    assert Mul(p.x, 0.0) == 0.0 && Mul(p.y, 0.0) == 0.0 && Mul(p.z, 0.0) == 0.0;
  }

  // ---------------------------------------------------------------------------
  // Normalised positions

  /** One coordinate of a normalised position: the slice coordinate along an axis with
      fewer than two voxels, otherwise the grid coordinate times the step size. */
  function AxisPosition(extent: nat, coord: nat, step: real, sliceCoord: real): real {
    if extent < 2 then sliceCoord else coord as real * step
  }

  /** The normalised position of grid cell `c`. */
  function CellPosition(d: Dims, spacing: Vec3, c: Coord, sliceCoord: real): Vec3 {
    Vec3(AxisPosition(d.x, c.x, spacing.x, sliceCoord),
         AxisPosition(d.y, c.y, spacing.y, sliceCoord),
         AxisPosition(d.z, c.z, spacing.z, sliceCoord))
  }

  /**
   `getNormalizedVolumePosition(index, sliceCoord)`: decode the linear index with
   the index mapper, then place each axis. The step sizes (`getSpacing()`) are a
   parameter. Decoding divides by `dx` and `dy`, so those must be non-zero.
   */
  function NormalizedVolumePosition(d: Dims, spacing: Vec3, index: nat, sliceCoord: real): (p: Vec3)
    requires d.x > 0 && d.y > 0
    // an axis with fewer than two voxels collapses to the slice coordinate
    ensures d.x < 2 ==> p.x == sliceCoord
    ensures d.y < 2 ==> p.y == sliceCoord
    ensures d.z < 2 ==> p.z == sliceCoord
    // the index of a grid cell is placed at that cell
    ensures forall c :: InGrid(d, c) && Linear(d, c) == index ==> p == CellPosition(d, spacing, c, sliceCoord)
  {
    DecodesToCell(d, index);
    CellPosition(d, spacing, FromLinear(d, index), sliceCoord)
  }

  /** At the linear index of a grid cell, the normalised position is that cell's position:
      axes with fewer than two voxels collapse to the slice coordinate. */
  lemma PositionOfCell(d: Dims, spacing: Vec3, c: Coord, sliceCoord: real)
    requires InGrid(d, c)
    ensures var p := NormalizedVolumePosition(d, spacing, Linear(d, c), sliceCoord);
            && p.x == (if d.x < 2 then sliceCoord else c.x as real * spacing.x)
            && p.y == (if d.y < 2 then sliceCoord else c.y as real * spacing.y)
            && p.z == (if d.z < 2 then sliceCoord else c.z as real * spacing.z)
  {
    FromLinearInverse(d, c);
  }

  /**
   `getNormalizedScreenCoordinates(sliceCoord)`: no result for a grid with a zero
   dimension; otherwise the normalised position of every voxel, written by three
   nested loops (z outermost, x innermost) at the voxel's linear index. The ghost
   `visits` records the index of every write, in order.
   */
  method NormalizedScreenCoordinates(f: TensorField3D, spacing: Vec3, sliceCoord: real)
    returns (r: Option<seq<Vec3>>, ghost visits: seq<nat>)
    ensures r.None? <==> Degenerate(f.dims)
    ensures r.Some? ==> |r.value| == Size(f.dims)
    ensures r.Some? ==> forall i :: 0 <= i < Size(f.dims) ==>
      r.value[i] == NormalizedVolumePosition(f.dims, spacing, i, sliceCoord)
    // every voxel index is written exactly once
    ensures r.Some? ==> |visits| == Size(f.dims) && forall k :: 0 <= k < |visits| ==> visits[k] == k
  {
    var d := f.dims;
    var out := seq(Size(d), _ => Zero);
    visits := [];
    if Degenerate(d) {
      return None, visits;
    }
    var z := 0;
    while z < d.z
      invariant 0 <= z <= d.z
      invariant |out| == Size(d)
      invariant |visits| == Linear(d, Coord(0, 0, z))
      invariant Written(d, spacing, sliceCoord, out, visits)
    {
      var y := 0;
      while y < d.y
        invariant 0 <= y <= d.y
        invariant |out| == Size(d)
        invariant |visits| == Linear(d, Coord(0, y, z))
        invariant Written(d, spacing, sliceCoord, out, visits)
      {
        out, visits := FillRow(d, spacing, sliceCoord, out, visits, y, z);
        y := y + 1;
      }
      SliceCarry(d, z);
      z := z + 1;
    }
    EndOfGrid(d);
    r := Some(out);
  }

  /** The first `|visits|` voxels hold their normalised positions, written in index order. */
  ghost predicate Written(d: Dims, spacing: Vec3, sliceCoord: real, out: seq<Vec3>, visits: seq<nat>)
    requires d.x > 0 && d.y > 0
  {
    && |visits| <= |out|
    && (forall k :: 0 <= k < |visits| ==> visits[k] == k)
    && (forall k :: 0 <= k < |visits| ==> out[k] == NormalizedVolumePosition(d, spacing, k, sliceCoord))
  }

  /** The innermost loop of the screen-coordinate pass: row `y` of slice `z`, x ascending. */
  method FillRow(d: Dims, spacing: Vec3, sliceCoord: real, out: seq<Vec3>, ghost visits: seq<nat>,
                 y: nat, z: nat)
    returns (out': seq<Vec3>, ghost visits': seq<nat>)
    requires !Degenerate(d) && y < d.y && z < d.z
    requires |out| == Size(d) && |visits| == Linear(d, Coord(0, y, z))
    requires Written(d, spacing, sliceCoord, out, visits)
    ensures |out'| == Size(d) && |visits'| == Linear(d, Coord(0, y + 1, z))
    ensures Written(d, spacing, sliceCoord, out', visits')
  {
    out', visits' := out, visits;
    var x := 0;
    while x < d.x
      invariant 0 <= x <= d.x
      invariant |out'| == Size(d)
      invariant |visits'| == Linear(d, Coord(x, y, z))
      invariant Written(d, spacing, sliceCoord, out', visits')
    {
      var index := Linear(d, Coord(x, y, z));
      LinearInRange(d, Coord(x, y, z));
      out' := out'[index := NormalizedVolumePosition(d, spacing, index, sliceCoord)];
      visits' := visits' + [index];
      x := x + 1;
    }
    RowCarry(d, y, z);
  }

  // ---------------------------------------------------------------------------
  // Defined entries

  /** `static_cast<int>` of a count: two's-complement wrap-around to 32 bits. */
  function Int32Cast(n: int): (r: int)
    ensures -0x8000_0000 <= r < 0x8000_0000
    ensures -0x8000_0000 <= n < 0x8000_0000 ==> r == n
    ensures (n - r) % 0x1_0000_0000 == 0
  {
    (n + 0x8000_0000) % 0x1_0000_0000 - 0x8000_0000
  }

  /** `getNumDefinedEntries`: the number of mask entries equal to 1, as an `int`. */
  method NumDefinedEntries(f: TensorField3D) returns (n: int)
    ensures n == Int32Cast(multiset(f.binaryMask)[1])
    ensures |f.binaryMask| < 0x8000_0000 ==> 0 <= n <= |f.binaryMask|
  {
    var mask := f.binaryMask;
    var count := 0;
    var i := 0;
    while i < |mask|
      invariant 0 <= i <= |mask|
      invariant count == multiset(mask[..i])[1]
    {
      assert mask[..i + 1] == mask[..i] + [mask[i]];
      if mask[i] == 1 {
        count := count + 1;
      }
      i := i + 1;
    }
    assert mask[..i] == mask;
    n := Int32Cast(count);
  }
}
