/**
 Conversion of a VTK bounding box `(xmin, xmax, ymin, ymax, zmin, zmax)` into the
 extent and offset of a tensor field. The C array `double[6]` becomes a sequence
 of at least six reals.
 */
module VtkUtil {
  import opened Geometry

  /** Per-axis size of the box: `extent[k] = bounds[2k+1] - bounds[2k]`. */
  function ExtentFromBounds(bounds: seq<real>): (e: Vec3)
    requires |bounds| >= 6
    ensures forall k :: 0 <= k < 3 ==> e.Get(k) == bounds[2 * k + 1] - bounds[2 * k]
  {
    Vec3(bounds[1] - bounds[0], bounds[3] - bounds[2], bounds[5] - bounds[4])
  }

  /** Lower corner of the box: `offset[k] = bounds[2k]`. */
  function OffsetFromBounds(bounds: seq<real>): (o: Vec3)
    requires |bounds| >= 6
    ensures forall k :: 0 <= k < 3 ==> o.Get(k) == bounds[2 * k]
  {
    Vec3(bounds[0], bounds[2], bounds[4])
  }

  /** Offset plus extent is the upper corner of the box. */
  lemma OffsetPlusExtentIsUpperCorner(bounds: seq<real>)
    requires |bounds| >= 6
    ensures OffsetFromBounds(bounds).Plus(ExtentFromBounds(bounds))
         == Vec3(bounds[1], bounds[3], bounds[5])
  {
  }

  /** An axis has non-negative extent exactly when its bounds are ordered. */
  lemma ExtentNonNegative(bounds: seq<real>, k: nat)
    requires |bounds| >= 6 && k < 3
    ensures ExtentFromBounds(bounds).Get(k) >= 0.0 <==> bounds[2 * k] <= bounds[2 * k + 1]
  {
  }
}
