/**
 The metadata store of a tensor field: a column table keyed by attribute. The
 library's attribute tag types become one enumeration, and the table becomes a
 map from attribute to column, replaced as a whole value rather than edited.
 */
module MetaData {
  import opened Geometry

  /** The six derived per-voxel attributes of a 3D tensor field. */
  datatype Attribute =
    | Lambda1                  // major eigenvalue
    | Lambda2                  // intermediate eigenvalue
    | Lambda3                  // minor eigenvalue
    | MajorEigenVector
    | IntermediateEigenVector
    | MinorEigenVector
  {
    /** True for the three eigenvalue attributes (scalar columns). */
    predicate IsEigenValue() {
      this == Lambda1 || this == Lambda2 || this == Lambda3
    }

    /** Rank of the eigen pair the attribute reads: 0 major, 1 intermediate, 2 minor. */
    function Rank(): (k: nat)
      ensures k < 3
    {
      match this
      case Lambda1 => 0
      case MajorEigenVector => 0
      case Lambda2 => 1
      case IntermediateEigenVector => 1
      case Lambda3 => 2
      case MinorEigenVector => 2
    }
  }

  /** All six standard attributes. */
  const Standard: set<Attribute> :=
    {Lambda1, Lambda2, Lambda3, MajorEigenVector, IntermediateEigenVector, MinorEigenVector}

  /** The eigenvalue attribute of rank `k`. */
  function EigenValueAttribute(k: nat): (a: Attribute)
    requires k < 3
    ensures a.IsEigenValue() && a.Rank() == k
  {
    if k == 0 then Lambda1 else if k == 1 then Lambda2 else Lambda3
  }

  /** The eigenvector attribute of rank `k`. */
  function EigenVectorAttribute(k: nat): (a: Attribute)
    requires k < 3
    ensures !a.IsEigenValue() && a.Rank() == k
  {
    if k == 0 then MajorEigenVector else if k == 1 then IntermediateEigenVector else MinorEigenVector
  }

  /** A metadata column: one scalar (`float`) or one 3-vector (`vec3`) per voxel. */
  datatype Column = ScalarColumn(values: seq<real>) | VectorColumn(vectors: seq<Vec3>) {
    function Length(): nat {
      match this
      case ScalarColumn(vs) => |vs|
      case VectorColumn(vs) => |vs|
    }
  }

  type Table = map<Attribute, Column>

  /** `hasMetaData<T>()` for all six attributes. */
  predicate AllPresent(md: Table) {
    Standard <= md.Keys
  }

  /** Column `a` is present and holds the element type the attribute declares. */
  predicate HasTyped(md: Table, a: Attribute) {
    a in md && (md[a].ScalarColumn? <==> a.IsEigenValue())
  }

  /**
   The hash of an attribute's identifier string, used to select an attribute
   by number. The hash function is not part of this model: the identifiers are
   assumed to hash to distinct values, so hash equality is identifier equality.
   */
  function IdentifierHash(a: Attribute): nat {
    match a
    case Lambda1 => 0
    case Lambda2 => 1
    case Lambda3 => 2
    case MajorEigenVector => 3
    case IntermediateEigenVector => 4
    case MinorEigenVector => 5
  }

  lemma HashInjective(a: Attribute, b: Attribute)
    ensures IdentifierHash(a) == IdentifierHash(b) <==> a == b
  {
  }
}
