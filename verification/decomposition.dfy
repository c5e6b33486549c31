/**
 The derivation pass of the 3D tensor field: every tensor is decomposed into
 three eigen pairs, ordered by eigenvalue (major first), and the six columns
 `Lambda1..3` and `Major/Intermediate/MinorEigenVector` are written into a new
 metadata table.

 The eigen solver is not part of this model: it is a parameter that returns
 three (value, vector) pairs, consistently paired, with the real parts already
 taken. The parallel loop of the source is modelled as a sequential one; each
 voxel's entries depend on that voxel's tensor alone.
 */
module Decomposition {
  import opened Geometry
  import opened MetaData

  /** An eigenvalue with its eigenvector (`std::pair<float, vec3>`). */
  datatype EigenPair = EigenPair(value: real, vector: Vec3)

  /** Three eigen pairs, by rank. */
  datatype EigenTriple = EigenTriple(p0: EigenPair, p1: EigenPair, p2: EigenPair) {

    function At(k: nat): EigenPair
      requires k < 3
    {
      if k == 0 then p0 else if k == 1 then p1 else p2
    }

    /** The three pairs, counted with multiplicity. */
    function Pairs(): multiset<EigenPair> {
      multiset{p0, p1, p2}
    }
  }

  /** The eigen decomposition engine, applied to one 3x3 matrix. */
  type EigenSolver = Mat3 -> EigenTriple

  const ZeroPair: EigenPair := EigenPair(0.0, Zero)

  /** The sentinel decomposition of the zero tensor, also the value-initialised entry. */
  const ZeroTriple: EigenTriple := EigenTriple(ZeroPair, ZeroPair, ZeroPair)

  predicate Descending(t: EigenTriple) {
    t.p0.value >= t.p1.value >= t.p2.value
  }

  /**
   `util::ordering(eigenValues, std::greater<float>())` followed by picking the
   pairs in that order. The source sorts with `std::sort`, which leaves the order
   of equal eigenvalues unspecified; this model resolves ties stably.
   */
  function SortDescending(t: EigenTriple): (r: EigenTriple)
    ensures Descending(r)
  {
    var a, b, c := t.p0, t.p1, t.p2;
    if a.value >= b.value then
      if b.value >= c.value then EigenTriple(a, b, c)
      else if a.value >= c.value then EigenTriple(a, c, b)
      else EigenTriple(c, a, b)
    else
      if a.value >= c.value then EigenTriple(b, a, c)
      else if b.value >= c.value then EigenTriple(b, c, a)
      else EigenTriple(c, b, a)
  }

  /** Sorting only reorders the pairs: none is lost, duplicated or changed. */
  lemma SortDescendingPermutes(t: EigenTriple)
    ensures SortDescending(t).Pairs() == t.Pairs()
  {
    var a, b, c := t.p0, t.p1, t.p2;
    var r := SortDescending(t);
    if a.value >= b.value {
      if b.value >= c.value {
      } else if a.value >= c.value {
        assert r == EigenTriple(a, c, b);
      } else {
        assert r == EigenTriple(c, a, b);
      }
    } else {
      if a.value >= c.value {
        assert r == EigenTriple(b, a, c);
      } else if b.value >= c.value {
        assert r == EigenTriple(b, c, a);
      } else {
        assert r == EigenTriple(c, b, a);
      }
    }
  }

  /** Pairs that already come in descending order keep their order. */
  lemma SortFixesDescending(t: EigenTriple)
    requires Descending(t)
    ensures SortDescending(t) == t
  {
  }

  /**
   The per-tensor step of the derivation pass: the zero matrix maps to three
   `(0, zero-vector)` pairs without consulting the solver; any other matrix maps
   to the solver's pairs sorted by descending eigenvalue.
   */
  function Decompose(solver: EigenSolver, m: Mat3): (r: EigenTriple)
    ensures m == ZeroMat ==> r == ZeroTriple
    ensures Descending(r)
  {
    if m == ZeroMat then ZeroTriple else SortDescending(solver(m))
  }

  /** A non-zero tensor's pairs are exactly the solver's pairs, reordered. */
  lemma DecomposeKeepsSolverPairs(solver: EigenSolver, m: Mat3)
    requires m != ZeroMat
    ensures Decompose(solver, m).Pairs() == solver(m).Pairs()
  {
    SortDescendingPermutes(solver(m));
  }

  /** The zero tensor's decomposition does not depend on the solver at all. */
  lemma ZeroTensorIgnoresSolver(s1: EigenSolver, s2: EigenSolver)
    ensures Decompose(s1, ZeroMat) == Decompose(s2, ZeroMat)
  {
  }

  /** The decomposition stored at voxel `i`: past the end of the tensor array the
      output buffers keep their value-initialised zero entries. */
  function VoxelTriple(solver: EigenSolver, tensors: seq<Mat3>, i: nat): EigenTriple {
    if i < |tensors| then Decompose(solver, tensors[i]) else ZeroTriple
  }

  /** The column the derivation pass computes for attribute `a` over `size` voxels. */
  function EigenColumn(solver: EigenSolver, tensors: seq<Mat3>, size: nat, a: Attribute): Column {
    if a.IsEigenValue() then
      ScalarColumn(seq(size, i requires 0 <= i < size => VoxelTriple(solver, tensors, i).At(a.Rank()).value))
    else
      VectorColumn(seq(size, i requires 0 <= i < size => VoxelTriple(solver, tensors, i).At(a.Rank()).vector))
  }

  /**
   The loop of the derivation pass: the buffers are sized to `size` voxels
   (value-initialised, so zero), then entry `i` is filled from the decomposition
   of tensor `i`. The six buffers of the source are kept here as one buffer of
   triples, from which the six columns are projected. Writing past the buffers is
   undefined in the source, hence `|tensors| <= size`.
   */
  method DeriveEigenColumns(solver: EigenSolver, tensors: seq<Mat3>, size: nat)
    returns (major: seq<real>, intermediate: seq<real>, minor: seq<real>,
             majorVectors: seq<Vec3>, intermediateVectors: seq<Vec3>, minorVectors: seq<Vec3>)
    requires |tensors| <= size
    ensures ScalarColumn(major) == EigenColumn(solver, tensors, size, Lambda1)
    ensures ScalarColumn(intermediate) == EigenColumn(solver, tensors, size, Lambda2)
    ensures ScalarColumn(minor) == EigenColumn(solver, tensors, size, Lambda3)
    ensures VectorColumn(majorVectors) == EigenColumn(solver, tensors, size, MajorEigenVector)
    ensures VectorColumn(intermediateVectors) == EigenColumn(solver, tensors, size, IntermediateEigenVector)
    ensures VectorColumn(minorVectors) == EigenColumn(solver, tensors, size, MinorEigenVector)
  {
    var buffer := DecomposeAll(solver, tensors, size);
    major := seq(size, j requires 0 <= j < size => buffer[j].p0.value);
    intermediate := seq(size, j requires 0 <= j < size => buffer[j].p1.value);
    minor := seq(size, j requires 0 <= j < size => buffer[j].p2.value);
    majorVectors := seq(size, j requires 0 <= j < size => buffer[j].p0.vector);
    intermediateVectors := seq(size, j requires 0 <= j < size => buffer[j].p1.vector);
    minorVectors := seq(size, j requires 0 <= j < size => buffer[j].p2.vector);
    ScalarColumnFromEntries(solver, tensors, size, Lambda1, major);
    ScalarColumnFromEntries(solver, tensors, size, Lambda2, intermediate);
    ScalarColumnFromEntries(solver, tensors, size, Lambda3, minor);
    VectorColumnFromEntries(solver, tensors, size, MajorEigenVector, majorVectors);
    VectorColumnFromEntries(solver, tensors, size, IntermediateEigenVector, intermediateVectors);
    VectorColumnFromEntries(solver, tensors, size, MinorEigenVector, minorVectors);
  }

  /** The loop itself: `size` value-initialised entries, entry `i` overwritten with the
      decomposition of tensor `i` for every tensor. */
  method DecomposeAll(solver: EigenSolver, tensors: seq<Mat3>, size: nat) returns (buffer: seq<EigenTriple>)
    requires |tensors| <= size
    ensures |buffer| == size
    ensures forall j :: 0 <= j < size ==> buffer[j] == VoxelTriple(solver, tensors, j)
  {
    buffer := seq(size, _ => ZeroTriple);
    var i := 0;
    while i < |tensors|
      invariant 0 <= i <= |tensors|
      invariant |buffer| == size
      invariant forall j :: 0 <= j < size ==> buffer[j] == Filled(solver, tensors, i, j)
    {
      buffer := buffer[i := Decompose(solver, tensors[i])];
      i := i + 1;
    }
  }

  lemma ScalarColumnFromEntries(solver: EigenSolver, tensors: seq<Mat3>, size: nat, a: Attribute, values: seq<real>)
    requires a.IsEigenValue() && |values| == size
    requires forall j :: 0 <= j < size ==> values[j] == VoxelTriple(solver, tensors, j).At(a.Rank()).value
    ensures ScalarColumn(values) == EigenColumn(solver, tensors, size, a)
  {
  }

  lemma VectorColumnFromEntries(solver: EigenSolver, tensors: seq<Mat3>, size: nat, a: Attribute, vectors: seq<Vec3>)
    requires !a.IsEigenValue() && |vectors| == size
    requires forall j :: 0 <= j < size ==> vectors[j] == VoxelTriple(solver, tensors, j).At(a.Rank()).vector
    ensures VectorColumn(vectors) == EigenColumn(solver, tensors, size, a)
  {
  }

  /** The buffers' entry `j` once the first `i` voxels have been written. */
  function Filled(solver: EigenSolver, tensors: seq<Mat3>, i: nat, j: nat): EigenTriple
    requires i <= |tensors|
  {
    if j < i then Decompose(solver, tensors[j]) else ZeroTriple
  }

  /**
   `initializeDefaultMetaData`: a no-op when all six attributes are present;
   otherwise a copy of the table in which every standard attribute that was
   missing is added from the derivation pass (`addIfNotPresent`), and every
   column already present is kept as it was.
   */
  function InitializeDefaultMetaData(solver: EigenSolver, tensors: seq<Mat3>, size: nat,
                                     md: Table): (r: Table)
    requires AllPresent(md) || |tensors| <= size
    ensures AllPresent(md) ==> r == md
    ensures AllPresent(r)
    ensures r.Keys == md.Keys + Standard
    ensures forall a :: a in md ==> r[a] == md[a]
    ensures forall a :: a in r && a !in md ==> r[a] == EigenColumn(solver, tensors, size, a)
    ensures forall a :: a in r && a !in md ==> r[a].Length() == size && HasTyped(r, a)
  {
    if AllPresent(md) then md
    else map a | a in md.Keys + Standard :: if a in md then md[a] else EigenColumn(solver, tensors, size, a)
  }

  /** Running the derivation pass again after it has run changes nothing. */
  lemma InitializeIdempotent(solver: EigenSolver, tensors: seq<Mat3>, size: nat, md: Table)
    requires AllPresent(md) || |tensors| <= size
    ensures var once := InitializeDefaultMetaData(solver, tensors, size, md);
            InitializeDefaultMetaData(solver, tensors, size, once) == once
  {
  }

  /** A freshly derived entry depends only on the tensor of its own voxel: two
      tensor arrays that agree at voxel `i` give the same entry `i` in every column. */
  lemma EntryDependsOnlyOnVoxel(solver: EigenSolver, tensors: seq<Mat3>, tensors': seq<Mat3>,
                                size: nat, a: Attribute, i: nat)
    requires i < size && i < |tensors| && i < |tensors'| && tensors[i] == tensors'[i]
    ensures var c := EigenColumn(solver, tensors, size, a);
            var c' := EigenColumn(solver, tensors', size, a);
            if a.IsEigenValue() then c.values[i] == c'.values[i] else c.vectors[i] == c'.vectors[i]
  {
  }

  /** In a freshly derived table the eigenvalue columns are ordered voxel by voxel. */
  lemma DerivedEigenValuesOrdered(solver: EigenSolver, tensors: seq<Mat3>, size: nat, md: Table, i: nat)
    requires |tensors| <= size && i < size
    requires Lambda1 !in md && Lambda2 !in md && Lambda3 !in md
    ensures var r := InitializeDefaultMetaData(solver, tensors, size, md);
            r[Lambda1].values[i] >= r[Lambda2].values[i] >= r[Lambda3].values[i]
  {
    var t := VoxelTriple(solver, tensors, i);
    assert Descending(t);
  }

  /** A zero tensor yields zero eigenvalues and zero eigenvectors in every freshly derived column. */
  lemma ZeroTensorGivesZeroEntries(solver: EigenSolver, tensors: seq<Mat3>, size: nat, a: Attribute, i: nat)
    requires i < size && i < |tensors| && tensors[i] == ZeroMat
    ensures var c := EigenColumn(solver, tensors, size, a);
            if a.IsEigenValue() then c.values[i] == 0.0 else c.vectors[i] == Zero
  {
  }
}
