/**
 The grid indexing the tensor field relies on. The library's `IndexMapper3D` is
 not part of this model; it is assumed here to be the row-major layout in which
 `x` varies fastest, then `y`, then `z`: `(x, y, z) |-> x + dx * (y + dy * z)`.
 The lemmas below show that this layout is a bijection between the grid's cells
 and the linear indices `0 .. dx * dy * dz - 1`.
 */
module IndexMapping {

  /** Grid dimensions (`size3_t`): width, height, depth. */
  datatype Dims = Dims(x: nat, y: nat, z: nat)

  /** A grid cell (`size3_t` position). */
  datatype Coord = Coord(x: nat, y: nat, z: nat)

  /** Number of voxels, `glm::compMul(dimensions)`. */
  function Size(d: Dims): nat {
    d.x * d.y * d.z
  }

  /** True when the dimensions have a zero component, so that the grid has no cell. */
  predicate Degenerate(d: Dims) {
    d.x == 0 || d.y == 0 || d.z == 0
  }

  predicate InGrid(d: Dims, c: Coord) {
    c.x < d.x && c.y < d.y && c.z < d.z
  }

  /** Forward map of the index mapper: position to linear offset. */
  function Linear(d: Dims, c: Coord): nat {
    c.x + d.x * (c.y + d.y * c.z)
  }

  /** Inverse map of the index mapper: linear offset to position. It divides by
      `dx` and `dy`, so those must be non-zero. */
  function FromLinear(d: Dims, i: nat): Coord
    requires d.x > 0 && d.y > 0
  {
    Coord(i % d.x, (i / d.x) % d.y, (i / d.x) / d.y)
  }

  lemma MulLe(n: nat, a: nat, b: nat)
    requires a <= b
    ensures n * a <= n * b
  {
    assert n * b == n * a + n * (b - a);
  }

  lemma MulLtCancel(n: nat, a: nat, b: nat)
    requires n * a < n * b
    ensures a < b
  {
    if b <= a {
      MulLe(n, b, a);
    }
  }

  /** Division with remainder is unique. */
  lemma DivModUnique(a: nat, n: nat, q: nat, r: nat)
    requires 0 <= r < n
    requires a == n * q + r
    ensures a / n == q && a % n == r
  {
    var q' := a / n;
    var r' := a % n;
    assert a == n * q' + r';
    assert n * q' < n * (q + 1) by {
      assert n * (q + 1) == n * q + n;
    }
    assert n * q < n * (q' + 1) by {
      assert n * (q' + 1) == n * q' + n;
    }
    MulLtCancel(n, q', q + 1);
    MulLtCancel(n, q, q' + 1);
  }

  lemma SizeIsPositive(d: Dims)
    ensures Size(d) > 0 <==> !Degenerate(d)
  {
    if d.x > 0 && d.y > 0 && d.z > 0 {
      MulLe(d.x, 1, d.y);
      MulLe(d.x * d.y, 1, d.z);
    }
  }

  /** Every cell of the grid lands inside the linear range. */
  lemma LinearInRange(d: Dims, c: Coord)
    requires InGrid(d, c)
    ensures Linear(d, c) < Size(d)
  {
    var row := c.y + d.y * c.z;
    assert d.y * (c.z + 1) == d.y * c.z + d.y;
    MulLe(d.y, c.z + 1, d.z);
    assert row + 1 <= d.y * d.z;
    MulLe(d.x, row + 1, d.y * d.z);
    assert d.x * (row + 1) == d.x * row + d.x;
    assert d.x * (d.y * d.z) == Size(d);
  }

  /** Decoding an encoded cell gives the cell back. */
  lemma FromLinearInverse(d: Dims, c: Coord)
    requires InGrid(d, c)
    ensures FromLinear(d, Linear(d, c)) == c
  {
    var i := Linear(d, c);
    DivModUnique(i, d.x, c.y + d.y * c.z, c.x);
    DivModUnique(c.y + d.y * c.z, d.y, c.z, c.y);
  }

  /** A grid cell is the only cell the decoding of its linear index can give. */
  lemma DecodesToCell(d: Dims, i: nat)
    requires d.x > 0 && d.y > 0
    ensures forall c :: InGrid(d, c) && Linear(d, c) == i ==> FromLinear(d, i) == c
  {
    forall c | InGrid(d, c) && Linear(d, c) == i
      ensures FromLinear(d, i) == c
    {
      FromLinearInverse(d, c);
    }
  }

  /** Encoding a decoded index gives the index back, and the decoded cell is in the grid. */
  lemma LinearInverse(d: Dims, i: nat)
    requires i < Size(d)
    ensures d.x > 0 && d.y > 0
    ensures InGrid(d, FromLinear(d, i)) && Linear(d, FromLinear(d, i)) == i
  {
    SizeIsPositive(d);
    var c := FromLinear(d, i);
    var row := i / d.x;
    assert i == d.x * row + c.x;
    assert row == d.y * c.z + c.y;
    assert d.x * (d.y * d.z) == Size(d);
    MulLtCancel(d.x, row, d.y * d.z);
    MulLtCancel(d.y, c.z, d.z);
  }

  /** The forward map is injective on the grid. */
  lemma LinearInjective(d: Dims, c: Coord, c': Coord)
    requires InGrid(d, c) && InGrid(d, c')
    ensures Linear(d, c) == Linear(d, c') <==> c == c'
  {
    if Linear(d, c) == Linear(d, c') {
      FromLinearInverse(d, c);
      FromLinearInverse(d, c');
    }
  }

  /** Both directions of the bijection at once, for every cell and every index. */
  lemma Bijection(d: Dims)
    requires !Degenerate(d)
    ensures forall i :: 0 <= i < Size(d) ==>
      InGrid(d, FromLinear(d, i)) && Linear(d, FromLinear(d, i)) == i
    ensures forall c :: InGrid(d, c) ==>
      Linear(d, c) < Size(d) && FromLinear(d, Linear(d, c)) == c
  {
    forall i | 0 <= i < Size(d)
      ensures InGrid(d, FromLinear(d, i)) && Linear(d, FromLinear(d, i)) == i
    {
      LinearInverse(d, i);
    }
    forall c | InGrid(d, c)
      ensures Linear(d, c) < Size(d) && FromLinear(d, Linear(d, c)) == c
    {
      LinearInRange(d, c);
      FromLinearInverse(d, c);
    }
  }

  /** Finishing a row of the grid moves the linear offset to the start of the next row. */
  lemma RowCarry(d: Dims, y: nat, z: nat)
    ensures Linear(d, Coord(d.x, y, z)) == Linear(d, Coord(0, y + 1, z))
  {
    assert d.x * (y + 1 + d.y * z) == d.x * (y + d.y * z) + d.x;
  }

  /** Finishing a slice of the grid moves the linear offset to the start of the next slice. */
  lemma SliceCarry(d: Dims, z: nat)
    ensures Linear(d, Coord(0, d.y, z)) == Linear(d, Coord(0, 0, z + 1))
  {
    assert d.y + d.y * z == d.y * (z + 1);
  }

  /** The start of the slice past the last one is the number of voxels. */
  lemma EndOfGrid(d: Dims)
    ensures Linear(d, Coord(0, 0, d.z)) == Size(d)
  {
    assert d.x * (d.y * d.z) == d.x * d.y * d.z;
  }
}
