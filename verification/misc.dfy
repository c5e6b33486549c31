/**
 Generic helpers of the tensor-visualisation library: clamped linear maps,
 element-wise division, squared distance, set operations over sorted
 sequences, concatenation, removal of adjacent duplicates and list printing.
 Floating point is replaced by reals; the sorted-set operations are stated for
 integer elements.
 */
module Misc {
  import opened Wrappers
  import opened Geometry

  // ---------------------------------------------------------------------------
  // Clamped linear maps between [minVal, maxVal] and [0, 1]

  /** `normalizeValue`: position of `val` in `[minVal, maxVal]`, clamped to `[0, 1]`.
      The division is only reached when `minVal < val < maxVal`, so its divisor is positive. */
  function NormalizeValue(val: real, minVal: real, maxVal: real): (r: real)
    ensures 0.0 <= r <= 1.0
    ensures r == 1.0 <==> val >= maxVal
    ensures r == 0.0 <==> val < maxVal && val <= minVal
    ensures minVal < val < maxVal ==> minVal + r * (maxVal - minVal) == val
  {
    if val >= maxVal then 1.0
    else if val <= minVal then 0.0
    else
      FractionBounds(val - minVal, maxVal - minVal);
      (val - minVal) / (maxVal - minVal)
  }

  /** A part strictly inside a positive whole is a fraction strictly inside (0, 1). */
  lemma FractionBounds(n: real, w: real)
    requires 0.0 < n < w
    ensures 0.0 < n / w < 1.0 && (n / w) * w == n
  {
    var r := n / w;
    assert Mul(r, w) == n;
    // a non-negative multiple of w is non-negative, so neither r - 1 nor -r can be
    forall v: real | v >= 0.0 ensures Mul(v, w) >= 0.0 { }
    assert Mul(r - 1.0, w) == n - w;
    assert Mul(-r, w) == -n;
  }

  /** `denormalizeValue`: the point at fraction `val` of `[minVal, maxVal]`, clamped at both ends. */
  function DenormalizeValue(val: real, minVal: real, maxVal: real): (r: real)
    ensures val <= 0.0 ==> r == minVal
    ensures val >= 1.0 ==> r == maxVal
    ensures minVal <= maxVal ==> minVal <= r <= maxVal
    ensures minVal < maxVal ==> (r == minVal <==> val <= 0.0) && (r == maxVal <==> val >= 1.0)
  {
    if val <= 0.0 then minVal
    else if val >= 1.0 then maxVal
    else
      ScaledBounds(val, maxVal - minVal);
      minVal + Mul(val, maxVal - minVal)
  }

  /** A fraction strictly inside (0, 1) of a width lies strictly inside the width. */
  lemma ScaledBounds(t: real, w: real)
    requires 0.0 < t < 1.0
    ensures w > 0.0 ==> 0.0 < Mul(t, w) < w
    ensures w == 0.0 ==> Mul(t, w) == 0.0
  {
    if w > 0.0 {
      // positive multiples of w: t * w and (1 - t) * w == w - t * w
      forall v: real | v > 0.0 ensures Mul(v, w) > 0.0 { }
      assert Mul(1.0 - t, w) == w - Mul(t, w);
    }
  }

  /** Denormalising a normalised interior value gives the value back. */
  lemma DenormalizeNormalize(v: real, minVal: real, maxVal: real)
    requires minVal < v < maxVal
    ensures DenormalizeValue(NormalizeValue(v, minVal, maxVal), minVal, maxVal) == v
  {
    var t := NormalizeValue(v, minVal, maxVal);
    assert 0.0 < t < 1.0;
  }

  /** Normalising a denormalised interior fraction gives the fraction back. */
  lemma NormalizeDenormalize(t: real, minVal: real, maxVal: real)
    requires minVal < maxVal && 0.0 < t < 1.0
    ensures NormalizeValue(DenormalizeValue(t, minVal, maxVal), minVal, maxVal) == t
  {
    var v := DenormalizeValue(t, minVal, maxVal);
    assert minVal < v < maxVal;
    var r := NormalizeValue(v, minVal, maxVal);
    assert r * (maxVal - minVal) == t * (maxVal - minVal);
  }

  /** Normalisation never reverses the order of two values, whatever the bounds. */
  lemma NormalizeMonotone(a: real, b: real, minVal: real, maxVal: real)
    requires a <= b
    ensures NormalizeValue(a, minVal, maxVal) <= NormalizeValue(b, minVal, maxVal)
  {
    if minVal < a && b < maxVal {
      var w := maxVal - minVal;
      assert (a - minVal) / w <= (b - minVal) / w by {
        assert (b - minVal) / w - (a - minVal) / w == (b - a) / w;
      }
    }
  }

  // ---------------------------------------------------------------------------
  // Element-wise division

  /** `divide(vec, divisor)` and `operator/(vec, divisor)`: every element divided by `divisor`. */
  function Divide(vec: seq<real>, divisor: real): (r: seq<real>)
    requires divisor != 0.0
    ensures |r| == |vec|
    ensures forall i :: 0 <= i < |r| ==> r[i] * divisor == vec[i]
  {
    seq(|vec|, i requires 0 <= i < |vec| => vec[i] / divisor)
  }

  // ---------------------------------------------------------------------------
  // Squared distance

  /** `(b[0] - a[0])^2 + ... + (b[n-1] - a[n-1])^2`, the inner product the source accumulates. */
  function SumOfSquares(a: seq<real>, b: seq<real>): (r: real)
    requires |a| == |b|
    ensures r >= 0.0
  {
    if |a| == 0 then 0.0
    else Square(b[0] - a[0]) + SumOfSquares(a[1..], b[1..])
  }

  /** `(y - x) * (y - x)` for `d = y - x`, the term the source's inner product adds up. */
  function Square(d: real): (r: real)
    ensures r >= 0.0
  {
    d * d
  }

  /** The sum of squares vanishes exactly when the two points coincide. */
  lemma {:induction false} SumOfSquaresZero(a: seq<real>, b: seq<real>)
    requires |a| == |b|
    ensures SumOfSquares(a, b) == 0.0 <==> a == b
  {
    if |a| > 0 {
      SumOfSquaresZero(a[1..], b[1..]);
      var d := b[0] - a[0];
      if d != 0.0 {
        SquarePositive(d);
        assert SumOfSquares(a, b) == Square(d) + SumOfSquares(a[1..], b[1..]);
        assert SumOfSquares(a, b) > 0.0;
        assert a[0] != b[0];
        assert a != b;
      } else {
        assert a[1..] == b[1..] ==> a == b by {
          if a[1..] == b[1..] {
            assert forall i :: 0 <= i < |a| ==> a[i] == b[i] by {
              forall i | 0 <= i < |a| ensures a[i] == b[i] {
                if i > 0 {
                  assert a[i] == a[1..][i - 1];
                }
              }
            }
          }
        }
      }
    }
  }

  lemma SquarePositive(d: real)
    requires d != 0.0
    ensures Square(d) > 0.0
  {
    var a := if d < 0.0 then -d else d;
    // a positive multiple of a positive number is positive
    forall w: real | w > 0.0 ensures Mul(a, w) > 0.0 { }
    assert Mul(a, a) == Square(d);
  }

  /** The sum of squares does not depend on the order of its arguments. */
  lemma {:induction false} SumOfSquaresSymmetric(a: seq<real>, b: seq<real>)
    requires |a| == |b|
    ensures SumOfSquares(a, b) == SumOfSquares(b, a)
  {
    if |a| > 0 {
      SumOfSquaresSymmetric(a[1..], b[1..]);
      assert Square(b[0] - a[0]) == Square(a[0] - b[0]);
    }
  }

  /** `squaredDistance(a, b)`: throws `std::domain_error` on vectors of different lengths. */
  function SquaredDistance(a: seq<real>, b: seq<real>): (r: Result<real, string>)
    ensures r.Failure? <==> |a| != |b|
    ensures r.Success? ==> r.value >= 0.0
    ensures r.Success? ==> (r.value == 0.0 <==> a == b)
  {
    if |a| != |b| then Failure("squared distance requires equal length vectors")
    else
      SumOfSquaresZero(a, b);
      Success(SumOfSquares(a, b))
  }

  /** Squared distance is symmetric, including in its failure. */
  lemma SquaredDistanceSymmetric(a: seq<real>, b: seq<real>)
    ensures SquaredDistance(a, b).Success? <==> SquaredDistance(b, a).Success?
    ensures SquaredDistance(a, b).Success? ==> SquaredDistance(a, b).value == SquaredDistance(b, a).value
  {
    if |a| == |b| {
      SumOfSquaresSymmetric(a, b);
    }
  }

  // ---------------------------------------------------------------------------
  // Set operations over sorted sequences

  predicate Sorted(s: seq<int>) {
    forall i, j :: 0 <= i < j < |s| ==> s[i] <= s[j]
  }

  /** Sorted without repetitions: a sorted set. */
  predicate StrictlySorted(s: seq<int>) {
    forall i, j :: 0 <= i < j < |s| ==> s[i] < s[j]
  }

  /** Prepending a lower bound keeps a sequence sorted; a strict lower bound keeps a
      strictly sorted sequence strictly sorted. */
  lemma SortedCons(h: int, s: seq<int>)
    requires Sorted(s)
    requires forall x :: x in s ==> h <= x
    ensures Sorted([h] + s)
    ensures StrictlySorted(s) && (forall x :: x in s ==> h < x) ==> StrictlySorted([h] + s)
  {
    var t := [h] + s;
    forall i, j | 0 <= i < j < |t|
      ensures t[i] <= t[j]
      ensures StrictlySorted(s) && (forall x :: x in s ==> h < x) ==> t[i] < t[j]
    {
      assert t[j] == s[j - 1];
      assert t[j] in s;
      if i > 0 {
        assert t[i] == s[i - 1];
      }
    }
  }

  /** Every element after the head of a sorted sequence is at least the head. */
  lemma HeadIsLeast(s: seq<int>)
    requires |s| > 0 && Sorted(s)
    ensures forall x :: x in s ==> s[0] <= x
    ensures StrictlySorted(s) ==> forall x :: x in s[1..] ==> s[0] < x
  {
    forall x | x in s ensures s[0] <= x {
      var i :| 0 <= i < |s| && s[i] == x;
    }
    if StrictlySorted(s) {
      forall x | x in s[1..] ensures s[0] < x {
        var i :| 0 <= i < |s[1..]| && s[1..][i] == x;
        assert s[i + 1] == x;
      }
    }
  }

  /** Membership in a non-empty sequence is membership of its head or of its tail. */
  lemma HeadAndTail(s: seq<int>)
    requires |s| > 0
    ensures forall x :: x in s <==> x == s[0] || x in s[1..]
  {
    assert s == [s[0]] + s[1..];
  }

  /** `std::set_intersection` of two sorted ranges. */
  function SetIntersection(a: seq<int>, b: seq<int>): (r: seq<int>)
    requires Sorted(a) && Sorted(b)
    ensures Sorted(r)
    ensures forall x :: x in r <==> x in a && x in b
    ensures StrictlySorted(a) && StrictlySorted(b) ==> StrictlySorted(r)
    decreases |a| + |b|
  {
    if |a| == 0 || |b| == 0 then []
    else if a[0] < b[0] then
      HeadIsLeast(b);
      assert a[0] !in b;
      HeadAndTail(a);
      SetIntersection(a[1..], b)
    else if b[0] < a[0] then
      HeadIsLeast(a);
      assert b[0] !in a;
      HeadAndTail(b);
      SetIntersection(a, b[1..])
    else
      var rest := SetIntersection(a[1..], b[1..]);
      HeadIsLeast(a);
      HeadIsLeast(b);
      HeadAndTail(a);
      HeadAndTail(b);
      SortedCons(a[0], rest);
      [a[0]] + rest
  }

  /** `std::set_union` of two sorted ranges. */
  function SetUnion(a: seq<int>, b: seq<int>): (r: seq<int>)
    requires Sorted(a) && Sorted(b)
    ensures Sorted(r)
    ensures forall x :: x in r <==> x in a || x in b
    ensures StrictlySorted(a) && StrictlySorted(b) ==> StrictlySorted(r)
    decreases |a| + |b|
  {
    if |a| == 0 then b
    else if |b| == 0 then a
    else if b[0] < a[0] then
      var rest := SetUnion(a, b[1..]);
      HeadIsLeast(a);
      HeadIsLeast(b);
      HeadAndTail(b);
      SortedCons(b[0], rest);
      [b[0]] + rest
    else if a[0] < b[0] then
      var rest := SetUnion(a[1..], b);
      HeadIsLeast(a);
      HeadIsLeast(b);
      HeadAndTail(a);
      SortedCons(a[0], rest);
      [a[0]] + rest
    else
      var rest := SetUnion(a[1..], b[1..]);
      HeadIsLeast(a);
      HeadIsLeast(b);
      HeadAndTail(a);
      HeadAndTail(b);
      SortedCons(a[0], rest);
      [a[0]] + rest
  }

  /** `x` occurs in each of the first `n` sequences. */
  ghost predicate InAll(vecs: seq<seq<int>>, n: nat, x: int)
    requires n <= |vecs|
  {
    forall j :: 0 <= j < n ==> x in vecs[j]
  }

  /** `x` occurs in some of the first `n` sequences. */
  ghost predicate InAny(vecs: seq<seq<int>>, n: nat, x: int)
    requires n <= |vecs|
  {
    exists j :: 0 <= j < n && x in vecs[j]
  }

  predicate AllSorted(vecs: seq<seq<int>>) {
    forall j :: 0 <= j < |vecs| ==> Sorted(vecs[j])
  }

  predicate AllStrictlySorted(vecs: seq<seq<int>>) {
    forall j :: 0 <= j < |vecs| ==> StrictlySorted(vecs[j])
  }

  /** `intersection(vecs)`: folds `std::set_intersection` over the inputs, starting from
      `vecs[0]`, which is read unconditionally. */
  method Intersection(vecs: seq<seq<int>>) returns (r: seq<int>)
    requires |vecs| > 0 && AllSorted(vecs)
    ensures Sorted(r)
    ensures forall x :: x in r <==> InAll(vecs, |vecs|, x)
    ensures AllStrictlySorted(vecs) ==> StrictlySorted(r)
  {
    r := vecs[0];
    var i := 1;
    while i < |vecs|
      invariant 1 <= i <= |vecs|
      invariant Sorted(r)
      invariant forall x :: x in r <==> InAll(vecs, i, x)
      invariant AllStrictlySorted(vecs) ==> StrictlySorted(r)
    {
      r := SetIntersection(r, vecs[i]);
      i := i + 1;
    }
  }

  /** `union_set(vecs)`: folds `std::set_union` over the inputs, starting from `vecs[0]`. */
  method UnionAll(vecs: seq<seq<int>>) returns (r: seq<int>)
    requires |vecs| > 0 && AllSorted(vecs)
    ensures Sorted(r)
    ensures forall x :: x in r <==> InAny(vecs, |vecs|, x)
    ensures AllStrictlySorted(vecs) ==> StrictlySorted(r)
  {
    r := vecs[0];
    var i := 1;
    while i < |vecs|
      invariant 1 <= i <= |vecs|
      invariant Sorted(r)
      invariant forall x :: x in r <==> InAny(vecs, i, x)
      invariant AllStrictlySorted(vecs) ==> StrictlySorted(r)
    {
      r := SetUnion(r, vecs[i]);
      i := i + 1;
    }
  }

  // ---------------------------------------------------------------------------
  // Concatenation

  /** `concatenate(vec1, vec2)`: `vec2` appended to `vec1`. */
  function Concatenate<T>(vec1: seq<T>, vec2: seq<T>): (r: seq<T>)
    ensures |r| == |vec1| + |vec2|
    ensures r[..|vec1|] == vec1 && r[|vec1|..] == vec2
  {
    vec1 + vec2
  }

  /** Reference flattening: the inputs laid end to end, in order. */
  function Flatten<T>(vecs: seq<seq<T>>): seq<T> {
    if |vecs| == 0 then [] else vecs[0] + Flatten(vecs[1..])
  }

  /** Sum of the input lengths, the size the source reserves. */
  function TotalLength<T>(vecs: seq<seq<T>>): nat {
    if |vecs| == 0 then 0 else |vecs[0]| + TotalLength(vecs[1..])
  }

  lemma {:induction false} FlattenAppend<T>(vecs: seq<seq<T>>, v: seq<T>)
    ensures Flatten(vecs + [v]) == Flatten(vecs) + v
  {
    if |vecs| == 0 {
      assert vecs + [v] == [v];
      assert Flatten([v]) == v + Flatten([v][1..]);
      assert [v][1..] == [];
    } else {
      assert (vecs + [v])[1..] == vecs[1..] + [v];
      FlattenAppend(vecs[1..], v);
    }
  }

  lemma {:induction false} FlattenLength<T>(vecs: seq<seq<T>>)
    ensures |Flatten(vecs)| == TotalLength(vecs)
  {
    if |vecs| > 0 {
      FlattenLength(vecs[1..]);
    }
  }

  /** `concatenate(vecs)`: empty for no inputs, else `vecs[0]` followed by the others in order. */
  method ConcatenateAll<T>(vecs: seq<seq<T>>) returns (r: seq<T>)
    ensures r == Flatten(vecs)
    ensures |r| == TotalLength(vecs)
  {
    FlattenLength(vecs);
    if |vecs| == 0 {
      return [];
    }
    r := vecs[0];
    assert Flatten(vecs[..1]) == vecs[0] by {
      assert vecs[..1] == [] + [vecs[0]];
      FlattenAppend([], vecs[0]);
    }
    var i := 1;
    while i < |vecs|
      invariant 1 <= i <= |vecs|
      invariant r == Flatten(vecs[..i])
    {
      assert vecs[..i + 1] == vecs[..i] + [vecs[i]];
      FlattenAppend(vecs[..i], vecs[i]);
      r := r + vecs[i];
      i := i + 1;
    }
    assert vecs[..i] == vecs;
  }

  // ---------------------------------------------------------------------------
  // Removal of adjacent duplicates

  predicate NoAdjacentDuplicates<T(==)>(s: seq<T>) {
    forall i :: 0 <= i < |s| - 1 ==> s[i] != s[i + 1]
  }

  /** `a` is obtained from `b` by deleting elements. */
  predicate IsSubsequence<T(==)>(a: seq<T>, b: seq<T>)
    decreases |b|
  {
    |a| == 0 || (|b| > 0 && ((a[0] == b[0] && IsSubsequence(a[1..], b[1..])) || IsSubsequence(a, b[1..])))
  }

  /** The heads of the runs of `s`, read left to right: `s[i]` is kept exactly when
      `i == 0` or `s[i] != s[i - 1]`. */
  function RunHeads<T(==)>(s: seq<T>): seq<T> {
    if |s| == 0 then []
    else RunHeads(s[..|s| - 1]) + (if |s| == 1 || s[|s| - 1] != s[|s| - 2] then [s[|s| - 1]] else [])
  }

  /** Putting an element in front of a non-empty sequence adds a run head exactly when
      it differs from the old first element. */
  lemma {:induction false} RunHeadsCons<T>(a: T, s: seq<T>)
    requires |s| > 0
    ensures RunHeads([a] + s) == if a == s[0] then RunHeads(s) else [a] + RunHeads(s)
    decreases |s|
  {
    var t := [a] + s;
    if |s| == 1 {
      assert t[..1] == [a];
      assert RunHeads([a]) == [a] by { assert [a][..0] == []; }
      assert RunHeads(s) == [s[0]] by { assert s[..0] == []; }
    } else {
      var s' := s[..|s| - 1];
      RunHeadsCons(a, s');
      assert t[..|t| - 1] == [a] + s';
      assert s'[0] == s[0];
      var tail := if s[|s| - 1] != s[|s| - 2] then [s[|s| - 1]] else [];
      assert RunHeads(t) == RunHeads([a] + s') + tail;
      assert RunHeads(s) == RunHeads(s') + tail;
    }
  }

  /** `unique(vector)`: `std::unique` followed by `erase`, which collapses every run of
      equal adjacent elements to one element. */
  function Unique<T(==)>(s: seq<T>): (r: seq<T>)
    ensures |s| > 0 ==> |r| > 0 && r[0] == s[0]
    ensures |r| <= |s|
    ensures NoAdjacentDuplicates(r)
    ensures IsSubsequence(r, s)
    ensures forall i :: 0 <= i < |s| ==> s[i] in r
    ensures forall i :: 0 <= i < |r| ==> r[i] in s
  {
    if |s| <= 1 then
      assert IsSubsequence(s, s) by {
        if |s| == 1 {
          assert IsSubsequence(s[1..], s[1..]);
        }
      }
      s
    else if s[0] == s[1] then
      var r := Unique(s[1..]);
      assert forall i :: 1 <= i < |s| ==> s[i] == s[1..][i - 1];
      r
    else
      var rest := Unique(s[1..]);
      var r := [s[0]] + rest;
      assert r[1..] == rest;
      assert forall i :: 1 <= i < |s| ==> s[i] == s[1..][i - 1];
      r
  }

  /** `unique` keeps exactly the run heads: the first element and every element that
      differs from its predecessor, and nothing else. */
  lemma {:induction false} UniqueIsRunHeads<T>(s: seq<T>)
    ensures Unique(s) == RunHeads(s)
    decreases |s|
  {
    if |s| == 1 {
      assert s[..0] == [];
    } else if |s| > 1 {
      UniqueIsRunHeads(s[1..]);
      RunHeadsCons(s[0], s[1..]);
      assert [s[0]] + s[1..] == s;
    }
  }

  /** A sequence without adjacent duplicates is left as it is. */
  lemma {:induction false} UniqueFixesDeduplicated<T>(s: seq<T>)
    requires NoAdjacentDuplicates(s)
    ensures Unique(s) == s
  {
    if |s| > 1 {
      UniqueFixesDeduplicated(s[1..]);
      assert [s[0]] + s[1..] == s;
    }
  }

  /** Applying `unique` twice is the same as applying it once. */
  lemma UniqueIdempotent<T>(s: seq<T>)
    ensures Unique(Unique(s)) == Unique(s)
  {
    UniqueFixesDeduplicated(Unique(s));
  }

  // ---------------------------------------------------------------------------
  // Printing a list

  /** The element strings joined by `sep`. */
  function Join(parts: seq<string>, sep: string): string {
    if |parts| == 0 then ""
    else if |parts| == 1 then parts[0]
    else parts[0] + sep + Join(parts[1..], sep)
  }

  /** What the printing loop streams: every formatted element followed by `", "`. */
  function Streamed<T>(list: seq<T>, fmt: T -> string): string {
    if |list| == 0 then "" else fmt(list[0]) + ", " + Streamed(list[1..], fmt)
  }

  function MapFormat<T>(list: seq<T>, fmt: T -> string): (r: seq<string>)
    ensures |r| == |list| && forall i :: 0 <= i < |list| ==> r[i] == fmt(list[i])
  {
    seq(|list|, i requires 0 <= i < |list| => fmt(list[i]))
  }

  lemma {:induction false} StreamedIsJoinThenSeparator<T>(list: seq<T>, fmt: T -> string)
    requires |list| > 0
    ensures Streamed(list, fmt) == Join(MapFormat(list, fmt), ", ") + ", "
  {
    var parts := MapFormat(list, fmt);
    if |list| > 1 {
      StreamedIsJoinThenSeparator(list[1..], fmt);
      assert parts[1..] == MapFormat(list[1..], fmt);
    } else {
      assert list[1..] == [];
    }
  }

  /**
   `to_string(list)` with `std::to_string` replaced by the formatter `fmt`:
   `"[ "`, then every element followed by `", "`, and the final `", "` overwritten
   by `" ]"`; an empty list prints as `"[ ]"`.
   */
  function ToString<T>(list: seq<T>, fmt: T -> string): (r: string)
    ensures |list| == 0 ==> r == "[ ]"
    ensures |list| > 0 ==> r == "[ " + Join(MapFormat(list, fmt), ", ") + " ]"
  {
    if |list| == 0 then "[ " + "]"
    else
      var str := "[ " + Streamed(list, fmt);
      StreamedIsJoinThenSeparator(list, fmt);
      var body := Join(MapFormat(list, fmt), ", ");
      assert str == "[ " + body + ", ";
      assert str[..|str| - 2] == "[ " + body;
      str[..|str| - 2] + " ]"
  }
}
