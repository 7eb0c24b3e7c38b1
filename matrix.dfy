// Square matrices of any size N: transpose, submatrix, the 2x2 determinant,
// the 3x3 minor, entry-wise addition, the row-by-column product, the
// product with a tuple, and the tolerance equality.

module Matrices {
  import opened Util
  import opened Tuples

  /** `Matrix<SIZE>`: rows of entries; the constructor plays the part of
      `matrix`, which wraps the given rows unchanged. */
  datatype Matrix = Matrix(data: seq<seq<real>>)

  /** The shape carried by the type `Matrix<N>`. */
  predicate Square(m: Matrix, n: nat)
  {
    |m.data| == n && forall i :: 0 <= i < n ==> |m.data[i]| == n
  }

  /** `Matrix<4>`. */
  type Matrix4 = m: Matrix | Square(m, 4) witness Matrix(seq(4, _ => seq(4, _ => 0.0)))

  /** `matrix_empty`: every entry 0. */
  function Zeros(n: nat): (m: Matrix)
    ensures Square(m, n)
    ensures forall i, j :: 0 <= i < n && 0 <= j < n ==> m.data[i][j] == 0.0
  {
    Matrix(seq(n, _ => seq(n, _ => 0.0)))
  }

  /** IDENTITY_MATRIX. */
  const Identity4: Matrix4 := Matrix([[1.0, 0.0, 0.0, 0.0],
                                      [0.0, 1.0, 0.0, 0.0],
                                      [0.0, 0.0, 1.0, 0.0],
                                      [0.0, 0.0, 0.0, 1.0]])

  /** The identity of any size, as a reference for IDENTITY_MATRIX. */
  function Identity(n: nat): (m: Matrix)
    ensures Square(m, n)
  {
    Matrix(seq(n, i => seq(n, j => if i == j then 1.0 else 0.0)))
  }

  lemma Identity4IsIdentity()
    ensures Identity4 == Identity(4)
  {
    var id := Identity(4);
    forall i | 0 <= i < 4
      ensures Identity4.data[i] == id.data[i]
    {
    }
  }

  // ---------------------------------------------------------------------
  // Transpose

  /** The transpose, as a value. */
  function Transposed(m: Matrix, n: nat): (r: Matrix)
    requires Square(m, n)
    ensures Square(r, n)
  {
    Matrix(seq(n, i requires 0 <= i < n => seq(n, j requires 0 <= j < n => m.data[j][i])))
  }

  /** `transpose`: fills a fresh row for each column of the input. */
  method Transpose(m: Matrix, n: nat) returns (r: Matrix)
    requires Square(m, n)
    ensures Square(r, n)
    ensures forall i, j :: 0 <= i < n && 0 <= j < n ==> r.data[i][j] == m.data[j][i]
    ensures r == Transposed(m, n)
  {
    var rows := Zeros(n).data;
    for i := 0 to n
      invariant |rows| == n
      invariant forall k :: 0 <= k < n ==> |rows[k]| == n
      invariant forall k, j :: 0 <= k < i && 0 <= j < n ==> rows[k][j] == m.data[j][k]
    {
      var row := seq(n, _ => 0.0);
      for j := 0 to n
        invariant |row| == n
        invariant forall l :: 0 <= l < j ==> row[l] == m.data[l][i]
      {
        row := row[j := m.data[j][i]];
      }
      rows := rows[i := row];
    }
    r := Matrix(rows);
    var t := Transposed(m, n);
    forall k | 0 <= k < n
      ensures r.data[k] == t.data[k]
    {
    }
  }

  /** Transposing twice gives the matrix back. */
  lemma TransposeInvolution(m: Matrix, n: nat)
    requires Square(m, n)
    ensures Transposed(Transposed(m, n), n) == m
  {
    var t := Transposed(Transposed(m, n), n);
    forall i | 0 <= i < n
      ensures t.data[i] == m.data[i]
    {
    }
  }

  /** The identity is its own transpose. */
  lemma TransposeIdentity()
    ensures Transposed(Identity4, 4) == Identity4
  {
    var t := Transposed(Identity4, 4);
    forall i | 0 <= i < 4
      ensures t.data[i] == Identity4.data[i]
    {
    }
  }

  // ---------------------------------------------------------------------
  // Submatrix, determinant, minor

  /** The index in the input matrix of index `i` of the submatrix that
      leaves out index `deleted`. */
  function Skip(i: nat, deleted: nat): (k: nat)
    ensures k != deleted
    ensures k == i || k == i + 1
  {
    if i >= deleted then i + 1 else i
  }

  /** The submatrix, as a value: row `deleteRow` and column `deleteColumn`
      removed, the remaining indices compacted. */
  function SubmatrixOf(m: Matrix, n: nat, deleteRow: nat, deleteColumn: nat): (s: Matrix)
    requires Square(m, n) && deleteRow < n && deleteColumn < n
    ensures Square(s, n - 1)
  {
    Matrix(seq(n - 1, i requires 0 <= i < n - 1 =>
           seq(n - 1, j requires 0 <= j < n - 1 => m.data[Skip(i, deleteRow)][Skip(j, deleteColumn)])))
  }

  /** `submatrix`: copies every row but `deleteRow`, and in it every column
      but `deleteColumn`, shifting later entries down by one through the
      row and column modifiers. Indices out of range make the source panic. */
  method Submatrix(m: Matrix, n: nat, deleteRow: nat, deleteColumn: nat) returns (s: Matrix)
    requires Square(m, n) && deleteRow < n && deleteColumn < n
    ensures Square(s, n - 1)
    ensures forall i, j :: 0 <= i < n - 1 && 0 <= j < n - 1 ==>
      s.data[i][j] == m.data[if i >= deleteRow then i + 1 else i][if j >= deleteColumn then j + 1 else j]
    ensures s == SubmatrixOf(m, n, deleteRow, deleteColumn)
  {
    var sub := Zeros(n - 1).data;
    var columnModifier := 0;
    var rowModifier := 0;
    for row := 0 to n
      invariant rowModifier == if row > deleteRow then 1 else 0
      invariant columnModifier == 0
      invariant |sub| == n - 1
      invariant forall k :: 0 <= k < n - 1 ==> |sub[k]| == n - 1
      invariant forall i, j :: 0 <= i < row - rowModifier && 0 <= j < n - 1 ==>
        sub[i][j] == m.data[Skip(i, deleteRow)][Skip(j, deleteColumn)]
    {
      if deleteRow != row {
        var newRow := seq(n - 1, _ => 0.0);
        for column := 0 to n
          invariant columnModifier == if column > deleteColumn then 1 else 0
          invariant |newRow| == n - 1
          invariant forall j :: 0 <= j < column - columnModifier ==>
            newRow[j] == m.data[row][Skip(j, deleteColumn)]
        {
          if deleteColumn != column {
            newRow := newRow[column - columnModifier := m.data[row][column]];
          } else {
            columnModifier := 1;
          }
        }
        columnModifier := 0;
        sub := sub[row - rowModifier := newRow];
      } else {
        rowModifier := 1;
      }
    }
    s := Matrix(sub);
    var spec := SubmatrixOf(m, n, deleteRow, deleteColumn);
    forall k | 0 <= k < n - 1
      ensures s.data[k] == spec.data[k]
    {
    }
  }

  /** Every entry outside the deleted row and column appears in the
      submatrix, at its index shifted down past the deleted ones. */
  lemma SubmatrixKeeps(m: Matrix, n: nat, deleteRow: nat, deleteColumn: nat, i: nat, j: nat)
    requires Square(m, n) && deleteRow < n && deleteColumn < n
    requires i < n && j < n && i != deleteRow && j != deleteColumn
    ensures var s := SubmatrixOf(m, n, deleteRow, deleteColumn);
      var i', j' := if i > deleteRow then i - 1 else i, if j > deleteColumn then j - 1 else j;
      i' < n - 1 && j' < n - 1 && s.data[i'][j'] == m.data[i][j]
  {
    var i', j' := if i > deleteRow then i - 1 else i, if j > deleteColumn then j - 1 else j;
    assert Skip(i', deleteRow) == i && Skip(j', deleteColumn) == j;
  }

  /** The submatrix examples of the matrix tests. */
  lemma SubmatrixExamples()
    ensures SubmatrixOf(Matrix([[1.0, 5.0, 0.0], [-3.0, 2.0, 7.0], [0.0, 6.0, -3.0]]), 3, 0, 2)
         == Matrix([[-3.0, 2.0], [0.0, 6.0]])
    ensures SubmatrixOf(Matrix([[-6.0, 1.0, 1.0, 6.0], [-8.0, 5.0, 8.0, 6.0],
                                [-1.0, 0.0, 8.0, 2.0], [-7.0, 1.0, -1.0, 1.0]]), 4, 2, 1)
         == Matrix([[-6.0, 1.0, 6.0], [-8.0, 8.0, 6.0], [-7.0, -1.0, 1.0]])
  {
    var a := SubmatrixOf(Matrix([[1.0, 5.0, 0.0], [-3.0, 2.0, 7.0], [0.0, 6.0, -3.0]]), 3, 0, 2);
    var ea := Matrix([[-3.0, 2.0], [0.0, 6.0]]);
    forall i | 0 <= i < 2
      ensures a.data[i] == ea.data[i]
    {
      forall j | 0 <= j < 2
        ensures a.data[i][j] == ea.data[i][j]
      {
      }
    }
    var mb := Matrix([[-6.0, 1.0, 1.0, 6.0], [-8.0, 5.0, 8.0, 6.0],
                      [-1.0, 0.0, 8.0, 2.0], [-7.0, 1.0, -1.0, 1.0]]);
    var b := SubmatrixOf(mb, 4, 2, 1);
    var eb := Matrix([[-6.0, 1.0, 6.0], [-8.0, 8.0, 6.0], [-7.0, -1.0, 1.0]]);
    forall i | 0 <= i < 3
      ensures b.data[i] == eb.data[i]
    {
      forall j | 0 <= j < 3
        ensures b.data[i][j] == eb.data[i][j]
      {
        assert b.data[i][j] == mb.data[Skip(i, 2)][Skip(j, 1)];
      }
    }
  }

  /** `determinant` of a 2x2 matrix: for a triangular matrix, the product
      of the diagonal. */
  function Determinant2(m: Matrix): (r: real)
    requires Square(m, 2)
    ensures m.data[0][1] == 0.0 || m.data[1][0] == 0.0 ==> r == m.data[0][0] * m.data[1][1]
  {
    m.data[0][0] * m.data[1][1] - m.data[0][1] * m.data[1][0]
  }

  /** The 2x2 determinant is that of the transpose, is 1 for the identity,
      changes sign when the rows are swapped and vanishes when they are
      equal. */
  lemma Determinant2Properties(m: Matrix)
    requires Square(m, 2)
    ensures Determinant2(Transposed(m, 2)) == Determinant2(m)
    ensures Determinant2(Identity(2)) == 1.0
    ensures Determinant2(Matrix([m.data[1], m.data[0]])) == -Determinant2(m)
    ensures m.data[0] == m.data[1] ==> Determinant2(m) == 0.0
  {
    var t := Transposed(m, 2);
    assert t.data[0][0] == m.data[0][0] && t.data[1][1] == m.data[1][1];
    assert t.data[0][1] == m.data[1][0] && t.data[1][0] == m.data[0][1];
  }

  /** `minor` of a 3x3 matrix: the determinant of its submatrix. */
  function Minor3(m: Matrix, deleteRow: nat, deleteColumn: nat): real
    requires Square(m, 3) && deleteRow < 3 && deleteColumn < 3
  {
    Determinant2(SubmatrixOf(m, 3, deleteRow, deleteColumn))
  }

  /** The minor ignores the deleted row and column: two matrices that agree
      everywhere else have the same minor. */
  lemma MinorIgnoresDeleted(m: Matrix, m': Matrix, deleteRow: nat, deleteColumn: nat)
    requires Square(m, 3) && Square(m', 3) && deleteRow < 3 && deleteColumn < 3
    requires forall i, j :: 0 <= i < 3 && 0 <= j < 3 && i != deleteRow && j != deleteColumn ==>
      m.data[i][j] == m'.data[i][j]
    ensures Minor3(m, deleteRow, deleteColumn) == Minor3(m', deleteRow, deleteColumn)
  {
    assert SubmatrixOf(m, 3, deleteRow, deleteColumn) == SubmatrixOf(m', 3, deleteRow, deleteColumn) by {
      var s, s' := SubmatrixOf(m, 3, deleteRow, deleteColumn), SubmatrixOf(m', 3, deleteRow, deleteColumn);
      forall i | 0 <= i < 2
        ensures s.data[i] == s'.data[i]
      {
      }
    }
  }

  /** The determinant and minor examples of the matrix tests. */
  lemma DeterminantExamples()
    ensures Determinant2(Matrix([[1.0, 5.0], [-3.0, 2.0]])) == 17.0
    ensures Minor3(Matrix([[3.0, 5.0, 0.0], [2.0, -1.0, -7.0], [6.0, -1.0, 5.0]]), 1, 0) == 25.0
    ensures Minor3(Matrix([[3.0, 5.0, 0.0], [2.0, -1.0, -7.0], [6.0, -1.0, 5.0]]), 0, 0) == -12.0
  {
    var m := Matrix([[3.0, 5.0, 0.0], [2.0, -1.0, -7.0], [6.0, -1.0, 5.0]]);
    var s10 := SubmatrixOf(m, 3, 1, 0);
    assert s10.data[0][0] == 5.0;
    assert s10.data[0][1] == 0.0;
    assert s10.data[1][0] == -1.0;
    assert s10.data[1][1] == m.data[2][2] == 5.0;
    var s00 := SubmatrixOf(m, 3, 0, 0);
    assert s00.data[0][0] == -1.0 && s00.data[0][1] == -7.0;
    assert s00.data[1][0] == -1.0 && s00.data[1][1] == 5.0;
  }

  // ---------------------------------------------------------------------
  // Addition and multiplication

  /** `Add`: entry-wise sum into a fresh zero matrix. */
  method Add(a: Matrix, b: Matrix, n: nat) returns (r: Matrix)
    requires Square(a, n) && Square(b, n)
    ensures Square(r, n)
    ensures forall i, j :: 0 <= i < n && 0 <= j < n ==> r.data[i][j] == a.data[i][j] + b.data[i][j]
  {
    var m := Zeros(n).data;
    for row := 0 to n
      invariant |m| == n
      invariant forall k :: 0 <= k < n ==> |m[k]| == n
      invariant forall i, j :: 0 <= i < row && 0 <= j < n ==> m[i][j] == a.data[i][j] + b.data[i][j]
    {
      for column := 0 to n
        invariant |m| == n
        invariant forall k :: 0 <= k < n ==> |m[k]| == n
        invariant forall i, j :: 0 <= i < row && 0 <= j < n ==> m[i][j] == a.data[i][j] + b.data[i][j]
        invariant forall j :: 0 <= j < column ==> m[row][j] == a.data[row][j] + b.data[row][j]
      {
        m := m[row := m[row][column := a.data[row][column] + b.data[row][column]]];
      }
    }
    r := Matrix(m);
  }

  /** The sum of the first `k` products of row `r` of `a` and column `c` of
      `b`, accumulated left to right as `mul` does. */
  function RowColumn(a: Matrix, b: Matrix, n: nat, r: nat, c: nat, k: nat): real
    requires Square(a, n) && Square(b, n) && r < n && c < n && k <= n
  {
    if k == 0 then 0.0 else RowColumn(a, b, n, r, c, k - 1) + a.data[r][k - 1] * b.data[k - 1][c]
  }

  /** The matrix product, as a value: entry [r][c] is the sum over i of
      a[r][i] * b[i][c]. */
  function Product(a: Matrix, b: Matrix, n: nat): (p: Matrix)
    requires Square(a, n) && Square(b, n)
    ensures Square(p, n)
  {
    Matrix(seq(n, r requires 0 <= r < n => seq(n, c requires 0 <= c < n => RowColumn(a, b, n, r, c, n))))
  }

  /** `Mul`: accumulates each entry of a fresh zero matrix in place. */
  method Mul(a: Matrix, b: Matrix, n: nat) returns (r: Matrix)
    requires Square(a, n) && Square(b, n)
    ensures r == Product(a, b, n)
  {
    var m := Zeros(n).data;
    for row := 0 to n
      invariant |m| == n
      invariant forall k :: 0 <= k < n ==> |m[k]| == n
      invariant forall i, j :: 0 <= i < row && 0 <= j < n ==> m[i][j] == RowColumn(a, b, n, i, j, n)
      invariant forall i, j :: row <= i < n && 0 <= j < n ==> m[i][j] == 0.0
    {
      for column := 0 to n
        invariant |m| == n
        invariant forall k :: 0 <= k < n ==> |m[k]| == n
        invariant forall i, j :: 0 <= i < row && 0 <= j < n ==> m[i][j] == RowColumn(a, b, n, i, j, n)
        invariant forall i, j :: row < i < n && 0 <= j < n ==> m[i][j] == 0.0
        invariant forall j :: 0 <= j < column ==> m[row][j] == RowColumn(a, b, n, row, j, n)
        invariant forall j :: column <= j < n ==> m[row][j] == 0.0
      {
        for i := 0 to n
          invariant |m| == n
          invariant forall k :: 0 <= k < n ==> |m[k]| == n
          invariant forall i', j :: 0 <= i' < row && 0 <= j < n ==> m[i'][j] == RowColumn(a, b, n, i', j, n)
          invariant forall i', j :: row < i' < n && 0 <= j < n ==> m[i'][j] == 0.0
          invariant forall j :: 0 <= j < column ==> m[row][j] == RowColumn(a, b, n, row, j, n)
          invariant forall j :: column < j < n ==> m[row][j] == 0.0
          invariant m[row][column] == RowColumn(a, b, n, row, column, i)
        {
          m := m[row := m[row][column := m[row][column] + a.data[row][i] * b.data[i][column]]];
        }
      }
    }
    r := Matrix(m);
    var p := Product(a, b, n);
    forall k | 0 <= k < n
      ensures r.data[k] == p.data[k]
    {
    }
  }

  /** Against the identity, the accumulated sum picks out a single entry. */
  lemma {:induction false} RowColumnIdentity(m: Matrix, n: nat, r: nat, c: nat, k: nat)
    requires Square(m, n) && r < n && c < n && k <= n
    ensures RowColumn(m, Identity(n), n, r, c, k) == if c < k then m.data[r][c] else 0.0
    ensures RowColumn(Identity(n), m, n, r, c, k) == if r < k then m.data[r][c] else 0.0
  {
    if k > 0 {
      RowColumnIdentity(m, n, r, c, k - 1);
    }
  }

  /** The identity is a unit of the product on both sides; in particular
      m * IDENTITY_MATRIX == m. */
  lemma ProductIdentity(m: Matrix, n: nat)
    requires Square(m, n)
    ensures Product(m, Identity(n), n) == m
    ensures Product(Identity(n), m, n) == m
  {
    var p, q := Product(m, Identity(n), n), Product(Identity(n), m, n);
    forall r | 0 <= r < n
      ensures p.data[r] == m.data[r] && q.data[r] == m.data[r]
    {
      forall c | 0 <= c < n
        ensures p.data[r][c] == m.data[r][c] && q.data[r][c] == m.data[r][c]
      {
        RowColumnIdentity(m, n, r, c, n);
      }
    }
  }

  // ---------------------------------------------------------------------
  // Matrix times tuple

  /** The bottom row of an affine transformation: (0, 0, 0, 1). */
  predicate Affine(m: Matrix4)
  {
    m.data[3][0] == 0.0 && m.data[3][1] == 0.0 && m.data[3][2] == 0.0 && m.data[3][3] == 1.0
  }

  /** `Mul<Tuple>` as written: the fourth column of every row is multiplied
      by the tuple's x where the matrix-vector product uses its w. It is the
      intended product applied to the tuple with w replaced by x, so under an
      affine matrix the result's w is the input's x. */
  function MulTupleAsWritten(m: Matrix4, t: Tuple): (r: Tuple)
    ensures Affine(m) ==> r.w == t.x
  {
    Tuple(m.data[0][0] * t.x + m.data[0][1] * t.y + m.data[0][2] * t.z + m.data[0][3] * t.x,
          m.data[1][0] * t.x + m.data[1][1] * t.y + m.data[1][2] * t.z + m.data[1][3] * t.x,
          m.data[2][0] * t.x + m.data[2][1] * t.y + m.data[2][2] * t.z + m.data[2][3] * t.x,
          m.data[3][0] * t.x + m.data[3][1] * t.y + m.data[3][2] * t.z + m.data[3][3] * t.x)
  }

  /** Row `i` of the matrix times the tuple as a column (x, y, z, w). */
  function RowTimes(m: Matrix4, i: nat, t: Tuple): real
    requires i < 4
  {
    m.data[i][0] * t.x + m.data[i][1] * t.y + m.data[i][2] * t.z + m.data[i][3] * t.w
  }

  /** `Mul<Tuple>` as intended: the matrix-vector product, component i being
      row i times the tuple. An affine matrix keeps w, so it maps points to
      points and vectors to vectors. */
  function MulTuple(m: Matrix4, t: Tuple): (r: Tuple)
    ensures Affine(m) ==> r.w == t.w
    ensures Affine(m) && IsPoint(t) ==> IsPoint(r)
    ensures Affine(m) && IsVector(t) ==> IsVector(r)
  {
    Tuple(RowTimes(m, 0, t), RowTimes(m, 1, t), RowTimes(m, 2, t), RowTimes(m, 3, t))
  }

  /** The product as written is the intended product of the tuple with its
      w replaced by its x. */
  lemma MulTupleAsWrittenReplacesW(m: Matrix4, t: Tuple)
    ensures MulTupleAsWritten(m, t) == MulTuple(m, Tuple(t.x, t.y, t.z, t.x))
  {
  }

  /** The product as written agrees with the intended one exactly when the
      tuple's x equals its w or the matrix's fourth column is zero. So it
      agrees on the matrix-times-tuple and ray-translation tests (x = w = 1),
      but under any translation not on a point with x != 1. */
  lemma MulTupleAsWrittenAgrees(m: Matrix4, t: Tuple)
    ensures MulTupleAsWritten(m, t) == MulTuple(m, t)
        <==> t.x == t.w || forall i :: 0 <= i < 4 ==> m.data[i][3] == 0.0
  {
    var d := t.x - t.w;
    var u, v := MulTupleAsWritten(m, t), MulTuple(m, t);
    RowDifference(m.data[0][0], m.data[0][1], m.data[0][2], m.data[0][3], t);
    RowDifference(m.data[1][0], m.data[1][1], m.data[1][2], m.data[1][3], t);
    RowDifference(m.data[2][0], m.data[2][1], m.data[2][2], m.data[2][3], t);
    RowDifference(m.data[3][0], m.data[3][1], m.data[3][2], m.data[3][3], t);
    assert u.x == v.x + m.data[0][3] * d && u.y == v.y + m.data[1][3] * d;
    assert u.z == v.z + m.data[2][3] * d && u.w == v.w + m.data[3][3] * d;
    if u == v && d != 0.0 {
      ZeroFactor(m.data[0][3], d);
      ZeroFactor(m.data[1][3], d);
      ZeroFactor(m.data[2][3], d);
      ZeroFactor(m.data[3][3], d);
    }
  }

  /** One row as written differs from the row times the tuple by its fourth
      entry times x - w. */
  lemma RowDifference(p: real, q: real, r: real, s: real, t: Tuple)
    ensures p * t.x + q * t.y + r * t.z + s * t.x == (p * t.x + q * t.y + r * t.z + s * t.w) + s * (t.x - t.w)
  {
  }

  lemma ZeroFactor(a: real, d: real)
    requires d != 0.0 && a * d == 0.0
    ensures a == 0.0
  {
    assert a == (a * d) / d;
  }

  /** IDENTITY_MATRIX is a unit of the intended product; the product as
      written replaces w by x instead, so it maps the point (0, 0, -5) to a
      vector and the origin to ZERO_VECTOR. */
  lemma MulTupleIdentity(t: Tuple)
    ensures MulTuple(Identity4, t) == t
    ensures MulTupleAsWritten(Identity4, t) == Tuple(t.x, t.y, t.z, t.x)
    ensures MulTupleAsWritten(Identity4, t) == t <==> t.x == t.w
    ensures MulTupleAsWritten(Identity4, Point(0.0, 0.0, -5.0)) == Vector(0.0, 0.0, -5.0)
    ensures MulTupleAsWritten(Identity4, Origin) == ZeroVector
  {
  }

  /** The product distributes over tuple addition and scaling, as the
      matrix-vector product does. */
  lemma MulTupleLinear(m: Matrix4, a: Tuple, b: Tuple, k: real)
    ensures MulTuple(m, Tuples.Add(a, b)) == Tuples.Add(MulTuple(m, a), MulTuple(m, b))
    ensures MulTuple(m, Scale(a, k)) == Scale(MulTuple(m, a), k)
  {
    MulTupleAdditive(m, a, b);
    MulTupleHomogeneous(m, a, k);
  }

  lemma MulTupleAdditive(m: Matrix4, a: Tuple, b: Tuple)
    ensures MulTuple(m, Tuples.Add(a, b)) == Tuples.Add(MulTuple(m, a), MulTuple(m, b))
  {
    RowTimesAdditive(m.data[0][0], m.data[0][1], m.data[0][2], m.data[0][3], a, b);
    RowTimesAdditive(m.data[1][0], m.data[1][1], m.data[1][2], m.data[1][3], a, b);
    RowTimesAdditive(m.data[2][0], m.data[2][1], m.data[2][2], m.data[2][3], a, b);
    RowTimesAdditive(m.data[3][0], m.data[3][1], m.data[3][2], m.data[3][3], a, b);
  }

  lemma MulTupleHomogeneous(m: Matrix4, a: Tuple, k: real)
    ensures MulTuple(m, Scale(a, k)) == Scale(MulTuple(m, a), k)
  {
    RowHomogeneous(m, 0, a, k);
    RowHomogeneous(m, 1, a, k);
    RowHomogeneous(m, 2, a, k);
    RowHomogeneous(m, 3, a, k);
    ScaledComponents(MulTuple(m, Scale(a, k)), MulTuple(m, a), k);
  }

  lemma ScaledComponents(v: Tuple, u: Tuple, k: real)
    requires v.x == u.x * k && v.y == u.y * k && v.z == u.z * k && v.w == u.w * k
    ensures v == Scale(u, k)
  {
  }

  lemma RowHomogeneous(m: Matrix4, i: nat, a: Tuple, k: real)
    requires i < 4
    ensures RowTimes(m, i, Scale(a, k)) == RowTimes(m, i, a) * k
  {
    RowTimesHomogeneous(m.data[i][0], m.data[i][1], m.data[i][2], m.data[i][3], a, k);
  }

  lemma RowTimesAdditive(p: real, q: real, r: real, s: real, a: Tuple, b: Tuple)
    ensures p * (a.x + b.x) + q * (a.y + b.y) + r * (a.z + b.z) + s * (a.w + b.w)
         == (p * a.x + q * a.y + r * a.z + s * a.w) + (p * b.x + q * b.y + r * b.z + s * b.w)
  {
  }

  lemma RowTimesHomogeneous(p: real, q: real, r: real, s: real, a: Tuple, k: real)
    ensures p * (a.x * k) + q * (a.y * k) + r * (a.z * k) + s * (a.w * k)
         == (p * a.x + q * a.y + r * a.z + s * a.w) * k
  {
  }

  /** The product as written is linear too: it is the intended product of
      the tuple with w replaced by x, and that replacement is linear. */
  lemma MulTupleAsWrittenLinear(m: Matrix4, a: Tuple, b: Tuple, k: real)
    ensures MulTupleAsWritten(m, Tuples.Add(a, b)) == Tuples.Add(MulTupleAsWritten(m, a), MulTupleAsWritten(m, b))
    ensures MulTupleAsWritten(m, Scale(a, k)) == Scale(MulTupleAsWritten(m, a), k)
  {
    var a', b' := Tuple(a.x, a.y, a.z, a.x), Tuple(b.x, b.y, b.z, b.x);
    assert Tuples.Add(a', b') == Tuple(Tuples.Add(a, b).x, Tuples.Add(a, b).y, Tuples.Add(a, b).z, Tuples.Add(a, b).x);
    assert Scale(a', k) == Tuple(Scale(a, k).x, Scale(a, k).y, Scale(a, k).z, Scale(a, k).x);
    MulTupleLinear(m, a', b', k);
    MulTupleAsWrittenReplacesW(m, a);
    MulTupleAsWrittenReplacesW(m, b);
    MulTupleAsWrittenReplacesW(m, Tuples.Add(a, b));
    MulTupleAsWrittenReplacesW(m, Scale(a, k));
  }

  /** The matrix-times-tuple example of the matrix tests, which both
      versions pass. */
  lemma MulTupleExample()
    ensures MulTuple(Matrix([[1.0, 2.0, 3.0, 4.0], [2.0, 4.0, 4.0, 2.0],
                             [8.0, 6.0, 4.0, 1.0], [0.0, 0.0, 0.0, 1.0]]), Tuple(1.0, 2.0, 3.0, 1.0))
         == Tuple(18.0, 24.0, 33.0, 1.0)
    ensures MulTupleAsWritten(Matrix([[1.0, 2.0, 3.0, 4.0], [2.0, 4.0, 4.0, 2.0],
                                      [8.0, 6.0, 4.0, 1.0], [0.0, 0.0, 0.0, 1.0]]), Tuple(1.0, 2.0, 3.0, 1.0))
         == Tuple(18.0, 24.0, 33.0, 1.0)
  {
  }

  // ---------------------------------------------------------------------
  // Equality

  /** Every pair of entries passes `a_equal_b`. */
  predicate AllClose(a: Matrix, b: Matrix, n: nat)
    requires Square(a, n) && Square(b, n)
  {
    forall i, j :: 0 <= i < n && 0 <= j < n ==> AEqualB(a.data[i][j], b.data[i][j])
  }

  /** `eq`: scans the entries row by row and stops at the first pair that
      fails the tolerance compare. */
  method Equal(a: Matrix, b: Matrix, n: nat) returns (eq: bool)
    requires Square(a, n) && Square(b, n)
    ensures eq <==> AllClose(a, b, n)
  {
    for row := 0 to n
      invariant forall i, j :: 0 <= i < row && 0 <= j < n ==> AEqualB(a.data[i][j], b.data[i][j])
    {
      for column := 0 to n
        invariant forall i, j :: 0 <= i < row && 0 <= j < n ==> AEqualB(a.data[i][j], b.data[i][j])
        invariant forall j :: 0 <= j < column ==> AEqualB(a.data[row][j], b.data[row][j])
      {
        if !AEqualB(a.data[row][column], b.data[row][column]) {
          return false;
        }
      }
    }
    return true;
  }

  /** `eq` is reflexive, and inherits the leniency of `a_equal_b`: the zero
      matrix "equals" every matrix of its size. */
  lemma AllCloseProperties(m: Matrix, n: nat)
    requires Square(m, n)
    ensures AllClose(m, m, n)
    ensures AllClose(Zeros(n), m, n)
  {
    forall i, j | 0 <= i < n && 0 <= j < n
      ensures AEqualB(m.data[i][j], m.data[i][j]) && AEqualB(Zeros(n).data[i][j], m.data[i][j])
    {
      AEqualBReflexive(m.data[i][j]);
      AEqualBLenient(Zeros(n).data[i][j], m.data[i][j]);
    }
  }
}
