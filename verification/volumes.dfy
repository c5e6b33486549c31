/**
 `getVolumeRepresentation`: three vector volumes over the field's grid, volume
 `k` meant to hold column `k` of the tensor at every voxel. A volume is its
 linear voxel buffer, laid out by the same index mapper as the tensors and
 zero-initialised when allocated.

 The source writes volume 1 at `(x, y, z)` but volumes 2 and 3 at `(x, y, y)`.
 `VolumeRepresentationAsWritten` models those writes; `VolumeRepresentation`
 is the per-voxel column split the documentation of the function describes,
 and is what the rest of this model means by the volume representation.
 */
module Volumes {
  import opened Geometry
  import opened IndexMapping

  /** `at(size3_t(x, y, z))`: the tensor of a grid cell. */
  function TensorAt(d: Dims, tensors: seq<Mat3>, c: Coord): Mat3
    requires InGrid(d, c) && Size(d) <= |tensors|
  {
    LinearInRange(d, c);
    tensors[Linear(d, c)]
  }

  /** The documented promise for volume `k`: every voxel holds column `k` of its tensor. */
  ghost predicate ColumnVolume(d: Dims, tensors: seq<Mat3>, k: nat, v: seq<Vec3>)
    requires k < 3 && Size(d) <= |tensors|
  {
    && |v| == Size(d)
    && forall c :: InGrid(d, c) ==>
         Linear(d, c) < |v| && v[Linear(d, c)] == TensorAt(d, tensors, c).Col(k)
  }

  /** What the `(x, y, y)` writes leave in volume `k`: a voxel whose y and z coordinates
      agree holds column `k` of the tensor in the last slice (the outermost loop runs over
      z, so the last slice writes last); every other voxel keeps its initial zero. */
  ghost predicate DiagonalVolume(d: Dims, tensors: seq<Mat3>, k: nat, v: seq<Vec3>)
    requires k < 3 && Size(d) <= |tensors|
  {
    && |v| == Size(d)
    && forall c :: InGrid(d, c) ==> Linear(d, c) < |v| && v[Linear(d, c)] == DiagonalValue(d, tensors, k, c)
  }

  function DiagonalValue(d: Dims, tensors: seq<Mat3>, k: nat, c: Coord): Vec3
    requires k < 3 && Size(d) <= |tensors| && InGrid(d, c)
  {
    if c.y == c.z then TensorAt(d, tensors, Coord(c.x, c.y, d.z - 1)).Col(k) else Zero
  }

  // ---------------------------------------------------------------------------
  // Loop states

  /** Loop order `z`, then `x`, then `y`: cell `c` is visited before iteration `(z, x, y)`. */
  predicate Before(c: Coord, z: nat, x: nat, y: nat) {
    c.z < z || (c.z == z && (c.x < x || (c.x == x && c.y < y)))
  }

  /** A volume written at `(x, y, z)` with column `k`, before iteration `(z, x, y)`. */
  ghost predicate ColumnStage(d: Dims, tensors: seq<Mat3>, k: nat, v: seq<Vec3>, z: nat, x: nat, y: nat)
    requires k < 3 && Size(d) <= |tensors|
  {
    && |v| == Size(d)
    && forall c :: InGrid(d, c) ==>
         Linear(d, c) < |v| &&
         v[Linear(d, c)] == (if Before(c, z, x, y) then TensorAt(d, tensors, c).Col(k) else Zero)
  }

  /** A volume written at `(x, y, y)` with column `k`, before iteration `(z, x, y)` of slice `z`. */
  ghost predicate DiagonalStage(d: Dims, tensors: seq<Mat3>, k: nat, v: seq<Vec3>, z: nat, x: nat, y: nat)
    requires k < 3 && Size(d) <= |tensors| && z < d.z
  {
    && |v| == Size(d)
    && forall c :: InGrid(d, c) ==>
         Linear(d, c) < |v| &&
         v[Linear(d, c)] == (
           if c.y != c.z then Zero
           else if c.x < x || (c.x == x && c.y < y) then TensorAt(d, tensors, Coord(c.x, c.y, z)).Col(k)
           else if z > 0 then TensorAt(d, tensors, Coord(c.x, c.y, z - 1)).Col(k)
           else Zero)
  }

  /** A volume written at `(x, y, y)` with column `k`, once the slices below `z` are done. */
  ghost predicate DiagonalLevel(d: Dims, tensors: seq<Mat3>, k: nat, v: seq<Vec3>, z: nat)
    requires k < 3 && Size(d) <= |tensors| && z <= d.z
  {
    && |v| == Size(d)
    && forall c :: InGrid(d, c) ==>
         Linear(d, c) < |v| &&
         v[Linear(d, c)] == (if c.y == c.z && z > 0 then TensorAt(d, tensors, Coord(c.x, c.y, z - 1)).Col(k) else Zero)
  }

  /** Storing at cell `p` changes the value at cell `c` only when `c` is `p`. */
  lemma StoreAt(d: Dims, v: seq<Vec3>, p: Coord, val: Vec3, c: Coord)
    requires |v| == Size(d) && InGrid(d, p) && InGrid(d, c)
    ensures Linear(d, p) < |v| && Linear(d, c) < |v|
    ensures v[Linear(d, p) := val][Linear(d, c)] == if c == p then val else v[Linear(d, c)]
  {
    LinearInRange(d, p);
    LinearInRange(d, c);
    LinearInjective(d, c, p);
  }

  lemma ZeroVolume(d: Dims, v: seq<Vec3>)
    requires |v| == Size(d) && forall i :: 0 <= i < |v| ==> v[i] == Zero
    ensures forall c :: InGrid(d, c) ==> Linear(d, c) < |v| && v[Linear(d, c)] == Zero
  {
    forall c | InGrid(d, c)
      ensures Linear(d, c) < |v| && v[Linear(d, c)] == Zero
    {
      LinearInRange(d, c);
    }
  }

  lemma ColumnStep(d: Dims, tensors: seq<Mat3>, k: nat, v: seq<Vec3>, z: nat, x: nat, y: nat)
    requires k < 3 && Size(d) <= |tensors| && InGrid(d, Coord(x, y, z))
    requires ColumnStage(d, tensors, k, v, z, x, y)
    ensures Linear(d, Coord(x, y, z)) < |v|
    ensures ColumnStage(d, tensors, k,
                        v[Linear(d, Coord(x, y, z)) := TensorAt(d, tensors, Coord(x, y, z)).Col(k)], z, x, y + 1)
  {
    var p := Coord(x, y, z);
    LinearInRange(d, p);
    forall c | InGrid(d, c)
      ensures v[Linear(d, p) := TensorAt(d, tensors, p).Col(k)][Linear(d, c)] ==
              if Before(c, z, x, y + 1) then TensorAt(d, tensors, c).Col(k) else Zero
    {
      StoreAt(d, v, p, TensorAt(d, tensors, p).Col(k), c);
    }
  }

  lemma DiagonalStep(d: Dims, tensors: seq<Mat3>, k: nat, v: seq<Vec3>, z: nat, x: nat, y: nat)
    requires k < 3 && Size(d) <= |tensors| && InGrid(d, Coord(x, y, z)) && y < d.z
    requires DiagonalStage(d, tensors, k, v, z, x, y)
    ensures Linear(d, Coord(x, y, y)) < |v|
    ensures DiagonalStage(d, tensors, k,
                          v[Linear(d, Coord(x, y, y)) := TensorAt(d, tensors, Coord(x, y, z)).Col(k)], z, x, y + 1)
  {
    var p := Coord(x, y, y);
    var val := TensorAt(d, tensors, Coord(x, y, z)).Col(k);
    LinearInRange(d, p);
    forall c | InGrid(d, c)
      ensures v[Linear(d, p) := val][Linear(d, c)] ==
         if c.y != c.z then Zero
         else if c.x < x || (c.x == x && c.y < y + 1) then TensorAt(d, tensors, Coord(c.x, c.y, z)).Col(k)
         else if z > 0 then TensorAt(d, tensors, Coord(c.x, c.y, z - 1)).Col(k)
         else Zero
    {
      StoreAt(d, v, p, val, c);
    }
  }

  // ---------------------------------------------------------------------------
  // As written

  /**
   The loops of `getVolumeRepresentation` as written. The tensors are read at
   every cell, so there must be one per voxel; volumes 2 and 3 are written at
   `(x, y, y)`, which lies outside the grid (undefined behaviour) when the grid
   has more rows than slices, so the model asks for `dy <= dz`.
   */
  method VolumeRepresentationAsWritten(d: Dims, tensors: seq<Mat3>)
    returns (v1: seq<Vec3>, v2: seq<Vec3>, v3: seq<Vec3>)
    requires Size(d) <= |tensors|
    requires Degenerate(d) || d.y <= d.z
    ensures ColumnVolume(d, tensors, 0, v1)
    ensures DiagonalVolume(d, tensors, 1, v2)
    ensures DiagonalVolume(d, tensors, 2, v3)
  {
    v1 := seq(Size(d), _ => Zero);
    v2 := seq(Size(d), _ => Zero);
    v3 := seq(Size(d), _ => Zero);
    ZeroVolume(d, v1);
    ZeroVolume(d, v2);
    ZeroVolume(d, v3);
    if Degenerate(d) {
      return;
    }
    var z := 0;
    while z < d.z
      invariant z <= d.z
      invariant ColumnStage(d, tensors, 0, v1, z, 0, 0)
      invariant DiagonalLevel(d, tensors, 1, v2, z)
      invariant DiagonalLevel(d, tensors, 2, v3, z)
    {
      v1, v2, v3 := WriteSliceAsWritten(d, tensors, v1, v2, v3, z);
      z := z + 1;
    }
  }

  /** The loops over `x` and `y` for slice `z`, as written. */
  method WriteSliceAsWritten(d: Dims, tensors: seq<Mat3>, v1: seq<Vec3>, v2: seq<Vec3>, v3: seq<Vec3>, z: nat)
    returns (w1: seq<Vec3>, w2: seq<Vec3>, w3: seq<Vec3>)
    requires Size(d) <= |tensors| && !Degenerate(d) && d.y <= d.z && z < d.z
    requires ColumnStage(d, tensors, 0, v1, z, 0, 0)
    requires DiagonalLevel(d, tensors, 1, v2, z) && DiagonalLevel(d, tensors, 2, v3, z)
    ensures ColumnStage(d, tensors, 0, w1, z + 1, 0, 0)
    ensures DiagonalLevel(d, tensors, 1, w2, z + 1) && DiagonalLevel(d, tensors, 2, w3, z + 1)
  {
    w1, w2, w3 := v1, v2, v3;
    var x := 0;
    while x < d.x
      invariant x <= d.x
      invariant ColumnStage(d, tensors, 0, w1, z, x, 0)
      invariant DiagonalStage(d, tensors, 1, w2, z, x, 0) && DiagonalStage(d, tensors, 2, w3, z, x, 0)
    {
      var y := 0;
      while y < d.y
        invariant y <= d.y
        invariant ColumnStage(d, tensors, 0, w1, z, x, y)
        invariant DiagonalStage(d, tensors, 1, w2, z, x, y) && DiagonalStage(d, tensors, 2, w3, z, x, y)
      {
        var p := Coord(x, y, z);
        var tensor := TensorAt(d, tensors, p);
        ColumnStep(d, tensors, 0, w1, z, x, y);
        DiagonalStep(d, tensors, 1, w2, z, x, y);
        DiagonalStep(d, tensors, 2, w3, z, x, y);
        w1 := w1[Linear(d, p) := tensor.c0];
        w2 := w2[Linear(d, Coord(x, y, y)) := tensor.c1];
        w3 := w3[Linear(d, Coord(x, y, y)) := tensor.c2];
        y := y + 1;
      }
      x := x + 1;
    }
  }

  /** A two-slice grid with a single row: the tensor of slice 0 has a non-zero second
      column, the tensor of slice 1 is zero. */
  const ExampleDims: Dims := Dims(1, 1, 2)
  const ExampleTensors: seq<Mat3> := [Mat3(Zero, Vec3(1.0, 0.0, 0.0), Zero), ZeroMat]

  /** On that grid the as-written loops lose the second column: voxel `(0, 0, 0)` receives
      the column of the tensor in slice 1 (zero) instead of its own, and voxel `(0, 0, 1)`
      is never written. */
  lemma AsWrittenLosesSecondColumn()
    ensures var c := Coord(0, 0, 0);
            DiagonalValue(ExampleDims, ExampleTensors, 1, c) != TensorAt(ExampleDims, ExampleTensors, c).Col(1)
    ensures DiagonalValue(ExampleDims, ExampleTensors, 1, Coord(0, 0, 1)) == Zero
  {
    assert Linear(ExampleDims, Coord(0, 0, 0)) == 0 && Linear(ExampleDims, Coord(0, 0, 1)) == 1;
  }

  /** A voxel where the last diagonal write differs from the voxel's own column shows
      that a volume left by the as-written loops is not the column split. */
  lemma DiagonalMismatchBreaksSplit(d: Dims, tensors: seq<Mat3>, k: nat, v: seq<Vec3>, c: Coord)
    requires k < 3 && Size(d) <= |tensors| && InGrid(d, c)
    requires DiagonalVolume(d, tensors, k, v)
    requires DiagonalValue(d, tensors, k, c) != TensorAt(d, tensors, c).Col(k)
    ensures !ColumnVolume(d, tensors, k, v)
  {
  }

  /** Hence no volume the as-written loops can produce on that grid is the column split. */
  lemma AsWrittenIsNotColumnSplit(v: seq<Vec3>)
    requires DiagonalVolume(ExampleDims, ExampleTensors, 1, v)
    ensures !ColumnVolume(ExampleDims, ExampleTensors, 1, v)
  {
    AsWrittenLosesSecondColumn();
    DiagonalMismatchBreaksSplit(ExampleDims, ExampleTensors, 1, v, Coord(0, 0, 0));
  }

  // ---------------------------------------------------------------------------
  // Corrected

  /** The column split the documentation describes: all three volumes written at
      `(x, y, z)`, volume `k` holding column `k` of every voxel's tensor. */
  method VolumeRepresentation(d: Dims, tensors: seq<Mat3>)
    returns (v1: seq<Vec3>, v2: seq<Vec3>, v3: seq<Vec3>)
    requires Size(d) <= |tensors|
    ensures ColumnVolume(d, tensors, 0, v1)
    ensures ColumnVolume(d, tensors, 1, v2)
    ensures ColumnVolume(d, tensors, 2, v3)
  {
    v1 := seq(Size(d), _ => Zero);
    v2 := seq(Size(d), _ => Zero);
    v3 := seq(Size(d), _ => Zero);
    ZeroVolume(d, v1);
    ZeroVolume(d, v2);
    ZeroVolume(d, v3);
    var z := 0;
    while z < d.z
      invariant z <= d.z
      invariant ColumnStage(d, tensors, 0, v1, z, 0, 0)
      invariant ColumnStage(d, tensors, 1, v2, z, 0, 0)
      invariant ColumnStage(d, tensors, 2, v3, z, 0, 0)
    {
      v1, v2, v3 := WriteSlice(d, tensors, v1, v2, v3, z);
      z := z + 1;
    }
  }

  /** The loops over `x` and `y` for slice `z`, each volume written at `(x, y, z)`. */
  method WriteSlice(d: Dims, tensors: seq<Mat3>, v1: seq<Vec3>, v2: seq<Vec3>, v3: seq<Vec3>, z: nat)
    returns (w1: seq<Vec3>, w2: seq<Vec3>, w3: seq<Vec3>)
    requires Size(d) <= |tensors| && z < d.z
    requires ColumnStage(d, tensors, 0, v1, z, 0, 0)
    requires ColumnStage(d, tensors, 1, v2, z, 0, 0) && ColumnStage(d, tensors, 2, v3, z, 0, 0)
    ensures ColumnStage(d, tensors, 0, w1, z + 1, 0, 0)
    ensures ColumnStage(d, tensors, 1, w2, z + 1, 0, 0) && ColumnStage(d, tensors, 2, w3, z + 1, 0, 0)
  {
    w1, w2, w3 := v1, v2, v3;
    var x := 0;
    while x < d.x
      invariant x <= d.x
      invariant ColumnStage(d, tensors, 0, w1, z, x, 0)
      invariant ColumnStage(d, tensors, 1, w2, z, x, 0) && ColumnStage(d, tensors, 2, w3, z, x, 0)
    {
      var y := 0;
      while y < d.y
        invariant y <= d.y
        invariant ColumnStage(d, tensors, 0, w1, z, x, y)
        invariant ColumnStage(d, tensors, 1, w2, z, x, y) && ColumnStage(d, tensors, 2, w3, z, x, y)
      {
        var p := Coord(x, y, z);
        var tensor := TensorAt(d, tensors, p);
        ColumnStep(d, tensors, 0, w1, z, x, y);
        ColumnStep(d, tensors, 1, w2, z, x, y);
        ColumnStep(d, tensors, 2, w3, z, x, y);
        w1 := w1[Linear(d, p) := tensor.c0];
        w2 := w2[Linear(d, p) := tensor.c1];
        w3 := w3[Linear(d, p) := tensor.c2];
        y := y + 1;
      }
      x := x + 1;
    }
  }

  /** The column volumes are a lossless split: the three volumes determine every tensor. */
  lemma ColumnVolumesDetermineTensors(d: Dims, tensors: seq<Mat3>, v1: seq<Vec3>, v2: seq<Vec3>, v3: seq<Vec3>, c: Coord)
    requires Size(d) <= |tensors| && InGrid(d, c)
    requires ColumnVolume(d, tensors, 0, v1) && ColumnVolume(d, tensors, 1, v2) && ColumnVolume(d, tensors, 2, v3)
    ensures TensorAt(d, tensors, c) == Mat3(v1[Linear(d, c)], v2[Linear(d, c)], v3[Linear(d, c)])
  {
  }
}
