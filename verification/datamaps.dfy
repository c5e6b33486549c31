/**
 `computeDataMaps`: the data range and value range of the six data mappers of a
 tensor field. Eigenvalue mappers span the smallest and largest eigenvalue of
 their column; eigenvector mappers span the smallest and largest component of
 any vector of their column, starting from the extreme `double` sentinels.
 */
module DataMaps {
  import opened Geometry
  import opened MetaData
  import opened TensorField

  /** `std::numeric_limits<double>::max()`, that is (2^53 - 1) * 2^971. */
  const DoubleMax: real := 179769313486231570814527423731704356798070567525844996598917476803157260780028538760589558632766878171540458953514382464234321326889464182768467546703537516986049910576551282076245490090389328944075868508455133942304583236903222948165808559332123348274797826204144723168738177180919299881250404026184124858368.0

  /** `std::numeric_limits<double>::lowest()`. */
  const DoubleLowest: real := -DoubleMax

  /** `std::min_element(s)`: the position of the first smallest value. An empty range
      has no element to dereference, so `s` must be non-empty. */
  function MinIndex(s: seq<real>): (i: nat)
    requires |s| > 0
    ensures i < |s|
    ensures forall j :: 0 <= j < |s| ==> s[i] <= s[j]
    ensures forall j :: 0 <= j < i ==> s[i] < s[j]
  {
    if |s| == 1 then 0
    else
      var k := MinIndex(s[..|s| - 1]);
      if s[|s| - 1] < s[k] then |s| - 1 else k
  }

  /** `std::max_element(s)`: the position of the first largest value. */
  function MaxIndex(s: seq<real>): (i: nat)
    requires |s| > 0
    ensures i < |s|
    ensures forall j :: 0 <= j < |s| ==> s[j] <= s[i]
    ensures forall j :: 0 <= j < i ==> s[j] < s[i]
  {
    if |s| == 1 then 0
    else
      var k := MaxIndex(s[..|s| - 1]);
      if s[k] < s[|s| - 1] then |s| - 1 else k
  }

  /** `*std::min_element(s)`. */
  function MinElement(s: seq<real>): real
    requires |s| > 0
  {
    s[MinIndex(s)]
  }

  /** `*std::max_element(s)`. */
  function MaxElement(s: seq<real>): real
    requires |s| > 0
  {
    s[MaxIndex(s)]
  }

  /** The running `min = std::min(min_f(v), min)` over the vectors, from `init`. */
  function RunningMin(init: real, vs: seq<Vec3>): (lo: real)
    ensures lo <= init
    ensures forall i :: 0 <= i < |vs| ==> lo <= vs[i].MinComponent()
    ensures lo == init || exists i :: 0 <= i < |vs| && lo == vs[i].MinComponent()
  {
    if |vs| == 0 then init
    else
      var acc := RunningMin(init, vs[..|vs| - 1]);
      var c := vs[|vs| - 1].MinComponent();
      if acc < c then acc else c
  }

  /** The running `max = std::max(max_f(v), max)` over the vectors, from `init`. */
  function RunningMax(init: real, vs: seq<Vec3>): (hi: real)
    ensures init <= hi
    ensures forall i :: 0 <= i < |vs| ==> vs[i].MaxComponent() <= hi
    ensures hi == init || exists i :: 0 <= i < |vs| && hi == vs[i].MaxComponent()
  {
    if |vs| == 0 then init
    else
      var acc := RunningMax(init, vs[..|vs| - 1]);
      var c := vs[|vs| - 1].MaxComponent();
      if c < acc then acc else c
  }

  /** All components of all vectors, vector by vector. */
  function Components(vs: seq<Vec3>): seq<real> {
    if |vs| == 0 then [] else Components(vs[..|vs| - 1]) + [vs[|vs| - 1].x, vs[|vs| - 1].y, vs[|vs| - 1].z]
  }

  /** Appending one value to a scan for the minimum compares it with the minimum so far. */
  lemma MinElementSnoc(s: seq<real>, x: real)
    requires |s| > 0
    ensures MinElement(s + [x]) == if x < MinElement(s) then x else MinElement(s)
  {
    assert (s + [x])[..|s|] == s;
  }

  /** Appending one value to a scan for the maximum compares it with the maximum so far. */
  lemma MaxElementSnoc(s: seq<real>, x: real)
    requires |s| > 0
    ensures MaxElement(s + [x]) == if MaxElement(s) < x then x else MaxElement(s)
  {
    assert (s + [x])[..|s|] == s;
  }

  /** Appending the three components of a vector to a scan for the minimum compares
      the vector's smallest component with the minimum so far. */
  lemma MinElementSnoc3(s: seq<real>, v: Vec3)
    requires |s| > 0
    ensures var m := MinElement(s); var c := v.MinComponent();
            MinElement(s + [v.x, v.y, v.z]) == if m < c then m else c
  {
    var s1 := s + [v.x];
    var s2 := s1 + [v.y];
    MinElementSnoc(s, v.x);
    MinElementSnoc(s1, v.y);
    MinElementSnoc(s2, v.z);
    assert s + [v.x, v.y, v.z] == s2 + [v.z];
  }

  /** Appending the three components of a vector to a scan for the maximum compares
      the vector's largest component with the maximum so far. */
  lemma MaxElementSnoc3(s: seq<real>, v: Vec3)
    requires |s| > 0
    ensures var m := MaxElement(s); var c := v.MaxComponent();
            MaxElement(s + [v.x, v.y, v.z]) == if c < m then m else c
  {
    var s1 := s + [v.x];
    var s2 := s1 + [v.y];
    MaxElementSnoc(s, v.x);
    MaxElementSnoc(s1, v.y);
    MaxElementSnoc(s2, v.z);
    assert s + [v.x, v.y, v.z] == s2 + [v.z];
  }

  /** The running minimum is the smallest of the start value and every component:
      folding per-vector minima is folding the components one by one. */
  lemma {:induction false} RunningMinIsMinOfComponents(init: real, vs: seq<Vec3>)
    ensures RunningMin(init, vs) == MinElement([init] + Components(vs))
  {
    if |vs| > 0 {
      var pre, v := vs[..|vs| - 1], vs[|vs| - 1];
      RunningMinIsMinOfComponents(init, pre);
      var s := [init] + Components(pre);
      assert [init] + Components(vs) == s + [v.x, v.y, v.z];
      MinElementSnoc3(s, v);
    }
  }

  /** The running maximum is the largest of the start value and every component. */
  lemma {:induction false} RunningMaxIsMaxOfComponents(init: real, vs: seq<Vec3>)
    ensures RunningMax(init, vs) == MaxElement([init] + Components(vs))
  {
    if |vs| > 0 {
      var pre, v := vs[..|vs| - 1], vs[|vs| - 1];
      RunningMaxIsMaxOfComponents(init, pre);
      var s := [init] + Components(pre);
      assert [init] + Components(vs) == s + [v.x, v.y, v.z];
      MaxElementSnoc3(s, v);
    }
  }

  /** A data mapper whose data range and value range are both `[lo, hi]`. */
  function RangeMap(lo: real, hi: real): DataMap {
    DataMap(Range(lo, hi), Range(lo, hi))
  }

  /**
   What `computeDataMaps` reads: the six attribute columns, typed as declared,
   with non-empty eigenvalue columns (`min_element` of an empty column is
   dereferenced), and the two mapper arrays of three.
   */
  predicate Ready(f: TensorField3D) {
    && (forall a :: a in Standard ==> HasTyped(f.metaData, a))
    && |f.metaData[Lambda1].values| > 0
    && |f.metaData[Lambda2].values| > 0
    && |f.metaData[Lambda3].values| > 0
    && |f.eigenValueMaps| == 3 && |f.eigenVectorMaps| == 3
  }

  function EigenValues(f: TensorField3D, k: nat): (vals: seq<real>)
    requires Ready(f) && k < 3
    ensures |vals| > 0
  {
    f.metaData[EigenValueAttribute(k)].values
  }

  function EigenVectors(f: TensorField3D, k: nat): seq<Vec3>
    requires Ready(f) && k < 3
  {
    f.metaData[EigenVectorAttribute(k)].vectors
  }

  function ComputeDataMaps(f: TensorField3D): (r: TensorField3D)
    requires Ready(f)
    // only the mappers change
    ensures r == f.(eigenValueMaps := r.eigenValueMaps, eigenVectorMaps := r.eigenVectorMaps)
    ensures |r.eigenValueMaps| == 3 && |r.eigenVectorMaps| == 3
    // every mapper's value range equals its data range
    ensures forall k :: 0 <= k < 3 ==> r.eigenValueMaps[k].dataRange == r.eigenValueMaps[k].valueRange
    ensures forall k :: 0 <= k < 3 ==> r.eigenVectorMaps[k].dataRange == r.eigenVectorMaps[k].valueRange
    // eigenvalue ranges are spanned by values of the column and contain all of them
    ensures forall k :: 0 <= k < 3 ==>
      r.eigenValueMaps[k].dataRange.x in EigenValues(f, k) && r.eigenValueMaps[k].dataRange.y in EigenValues(f, k)
    ensures forall k, i :: 0 <= k < 3 && 0 <= i < |EigenValues(f, k)| ==>
      r.eigenValueMaps[k].dataRange.x <= EigenValues(f, k)[i] <= r.eigenValueMaps[k].dataRange.y
    // eigenvector ranges contain every component of every vector of the column
    ensures forall k, i, j :: 0 <= k < 3 && 0 <= i < |EigenVectors(f, k)| && 0 <= j < 3 ==>
      r.eigenVectorMaps[k].dataRange.x <= EigenVectors(f, k)[i].Get(j) <= r.eigenVectorMaps[k].dataRange.y
    // an eigenvector range is the least and greatest of the sentinels and all components
    ensures forall k :: 0 <= k < 3 ==>
      && r.eigenVectorMaps[k].dataRange.x == MinElement([DoubleMax] + Components(EigenVectors(f, k)))
      && r.eigenVectorMaps[k].dataRange.y == MaxElement([DoubleLowest] + Components(EigenVectors(f, k)))
    // an empty eigenvector column leaves the inverted sentinel range
    ensures forall k :: 0 <= k < 3 && |EigenVectors(f, k)| == 0 ==>
      r.eigenVectorMaps[k].dataRange == Range(DoubleMax, DoubleLowest)
  {
    VectorReductionsAreExtremes(f);
    f.(eigenValueMaps := seq(3, k requires 0 <= k < 3 =>
                           RangeMap(MinElement(EigenValues(f, k)), MaxElement(EigenValues(f, k)))),
       eigenVectorMaps := seq(3, k requires 0 <= k < 3 =>
                           RangeMap(RunningMin(DoubleMax, EigenVectors(f, k)), RunningMax(DoubleLowest, EigenVectors(f, k)))))
  }

  /** Each running reduction over an eigenvector column is the extreme of the
      sentinel and every component of the column. */
  lemma VectorReductionsAreExtremes(f: TensorField3D)
    requires Ready(f)
    ensures forall k :: 0 <= k < 3 ==>
      && RunningMin(DoubleMax, EigenVectors(f, k)) == MinElement([DoubleMax] + Components(EigenVectors(f, k)))
      && RunningMax(DoubleLowest, EigenVectors(f, k)) == MaxElement([DoubleLowest] + Components(EigenVectors(f, k)))
  {
    forall k | 0 <= k < 3
      ensures RunningMin(DoubleMax, EigenVectors(f, k)) == MinElement([DoubleMax] + Components(EigenVectors(f, k)))
      ensures RunningMax(DoubleLowest, EigenVectors(f, k)) == MaxElement([DoubleLowest] + Components(EigenVectors(f, k)))
    {
      RunningMinIsMinOfComponents(DoubleMax, EigenVectors(f, k));
      RunningMaxIsMaxOfComponents(DoubleLowest, EigenVectors(f, k));
    }
  }

  /** Computing the mappers twice gives what computing them once gives. */
  lemma ComputeDataMapsIdempotent(f: TensorField3D)
    requires Ready(f)
    ensures Ready(ComputeDataMaps(f))
    ensures ComputeDataMaps(ComputeDataMaps(f)) == ComputeDataMaps(f)
  {
  }

  /** Every eigenvalue range is well ordered: the columns are never empty. */
  lemma EigenValueRangeOrdered(f: TensorField3D, k: nat)
    requires Ready(f) && k < 3
    ensures var m := ComputeDataMaps(f).eigenValueMaps[k]; m.dataRange.x <= m.dataRange.y
  {
    var vals := EigenValues(f, k);
    assert ComputeDataMaps(f).eigenValueMaps[k].dataRange.x <= vals[0];
  }

  /** An eigenvector range is well ordered exactly when its column is not empty. */
  lemma EigenVectorRangeOrdered(f: TensorField3D, k: nat)
    requires Ready(f) && k < 3
    ensures var m := ComputeDataMaps(f).eigenVectorMaps[k];
            m.dataRange.x <= m.dataRange.y <==> |EigenVectors(f, k)| > 0
  {
    var vs := EigenVectors(f, k);
    if |vs| > 0 {
      assert ComputeDataMaps(f).eigenVectorMaps[k].dataRange.x <= vs[0].x;
    }
  }
}
