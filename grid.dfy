/**
 * Matrices as values: a grid is a sequence of rows. These are the abstract
 * contents of a `Matrix` object and the operations its methods are proved
 * against.
 */
module Grids {
  import opened Vectors

  type Grid = seq<seq<real>>

  /** `g` has `m` rows of `n` entries each. */
  predicate IsShape(g: Grid, m: nat, n: nat) {
    |g| == m && forall i :: 0 <= i < m ==> |g[i]| == n
  }

  /** A rectangular grid with at least one row; its column count is that of row 0. */
  predicate IsMatrix(g: Grid) {
    |g| > 0 && IsShape(g, |g|, |g[0]|)
  }

  /** Two grids of the same shape that agree in every cell are the same grid. */
  lemma SameEntries(a: Grid, b: Grid, m: nat, n: nat)
    requires IsShape(a, m, n) && IsShape(b, m, n)
    requires forall i, j :: 0 <= i < m && 0 <= j < n ==> a[i][j] == b[i][j]
    ensures a == b
  {
    forall i | 0 <= i < m
      ensures a[i] == b[i]
    {
      assert forall j :: 0 <= j < n ==> a[i][j] == b[i][j];
    }
  }

  function Zeros(m: nat, n: nat): (g: Grid)
    ensures IsShape(g, m, n)
  {
    seq(m, i => seq(n, j => 0.0))
  }

  /** The n×n identity: 1 on the diagonal and 0 elsewhere. */
  function Identity(n: nat): (g: Grid)
    ensures IsShape(g, n, n)
  {
    seq(n, i => seq(n, j => if i == j then 1.0 else 0.0))
  }

  /** Σ_{k<n} a[i][k]·b[k][j], accumulated from k = 0 upward. */
  function Dot(a: Grid, b: Grid, i: nat, j: nat, n: nat): real
    requires i < |a| && n <= |a[i]| && n <= |b|
    requires forall k :: 0 <= k < n ==> j < |b[k]|
  {
    if n == 0 then 0.0 else Dot(a, b, i, j, n - 1) + a[i][n - 1] * b[n - 1][j]
  }

  /** The m×p product of an m×n and an n×p grid. */
  function Product(a: Grid, b: Grid, m: nat, n: nat, p: nat): (r: Grid)
    requires IsShape(a, m, n) && IsShape(b, n, p)
    ensures IsShape(r, m, p)
  {
    seq(m, i requires 0 <= i < m => seq(p, j requires 0 <= j < p => Dot(a, b, i, j, n)))
  }

  /** The n×m transpose of an m×n grid. */
  function Transposed(g: Grid, m: nat, n: nat): (r: Grid)
    requires IsShape(g, m, n)
    ensures IsShape(r, n, m)
  {
    seq(n, j requires 0 <= j < n => seq(m, i requires 0 <= i < m => g[i][j]))
  }

  /** Column `j` of the first `m` rows, top to bottom. */
  function Column(g: Grid, m: nat, j: nat): (c: seq<real>)
    requires m <= |g| && forall i :: 0 <= i < m ==> j < |g[i]|
    ensures |c| == m
  {
    seq(m, i requires 0 <= i < m => g[i][j])
  }

  /** The first `n` columns of an m-row grid, one after the other. */
  function ColumnMajor(g: Grid, m: nat, n: nat): seq<real>
    requires |g| == m && forall i :: 0 <= i < m ==> n <= |g[i]|
  {
    if n == 0 then [] else ColumnMajor(g, m, n - 1) + Column(g, m, n - 1)
  }

  /** |p − q|. */
  function AbsDiff(p: real, q: real): (r: real)
    ensures r >= 0.0
    ensures r == 0.0 <==> p == q
  {
    if p < q then q - p else p - q
  }

  /** Same shape, and every pair of entries differs by at most `delta`. */
  predicate WithinDelta(a: Grid, b: Grid, delta: real)
    requires IsMatrix(a) && IsMatrix(b)
  {
    && |a| == |b|
    && |a[0]| == |b[0]|
    && forall i, j :: 0 <= i < |a| && 0 <= j < |a[0]| ==> AbsDiff(a[i][j], b[i][j]) <= delta
  }

  /** The point (x, y, z, 1) as a 4×1 column. */
  function Homogeneous(v: Vector3D): (g: Grid)
    ensures IsShape(g, 4, 1)
  {
    [[v.x], [v.y], [v.z], [1.0]]
  }

  /** The first three rows of `g` applied to the homogeneous point (x, y, z, 1). */
  function TransformPoint(g: Grid, v: Vector3D): Vector3D
    requires |g| >= 3 && forall i :: 0 <= i < 3 ==> |g[i]| >= 4
  {
    Vector3D(
      g[0][0] * v.x + g[0][1] * v.y + g[0][2] * v.z + g[0][3],
      g[1][0] * v.x + g[1][1] * v.y + g[1][2] * v.z + g[1][3],
      g[2][0] * v.x + g[2][1] * v.y + g[2][2] * v.z + g[2][3])
  }

  // ---------------------------------------------------------------- lemmas

  /** Transposing twice gives back the original grid. */
  lemma TransposeInvolution(g: Grid, m: nat, n: nat)
    requires IsShape(g, m, n)
    ensures Transposed(Transposed(g, m, n), n, m) == g
  {
    var t := Transposed(Transposed(g, m, n), n, m);
    SameEntries(t, g, m, n);
  }

  /** Column-major layout: there are m·n values, and position `j*m + i` holds entry (i, j). */
  lemma {:induction false} ColumnMajorLayout(g: Grid, m: nat, n: nat, i: nat, j: nat)
    requires |g| == m && forall r :: 0 <= r < m ==> n <= |g[r]|
    requires i < m && j < n
    ensures |ColumnMajor(g, m, n)| == m * n
    ensures j * m + i < m * n && ColumnMajor(g, m, n)[j * m + i] == g[i][j]
  {
    ColumnMajorLength(g, m, n);
    ColumnMajorLength(g, m, n - 1);
    var s := ColumnMajor(g, m, n - 1);
    assert ColumnMajor(g, m, n) == s + Column(g, m, n - 1);
    if j < n - 1 {
      ColumnMajorLayout(g, m, n - 1, i, j);
      MulStrictBound(i, j, m, n);
    } else {
      assert j * m == m * (n - 1);
    }
  }

  lemma {:induction false} ColumnMajorLength(g: Grid, m: nat, n: nat)
    requires |g| == m && forall i :: 0 <= i < m ==> n <= |g[i]|
    ensures |ColumnMajor(g, m, n)| == m * n
  {
    if n > 0 {
      ColumnMajorLength(g, m, n - 1);
      assert m * (n - 1) + m == m * n;
    }
  }

  /** With i < m and j < n, the index j·m + i stays below m·n. */
  lemma MulStrictBound(i: nat, j: nat, m: nat, n: nat)
    requires i < m && j < n
    ensures j * m + i < m * n
  {
    assert j * m + i < j * m + m == (j + 1) * m;
    assert (j + 1) * m <= n * m by {
      MulMonotone(j + 1, n, m);
    }
  }

  lemma {:induction false} MulMonotone(a: nat, b: nat, c: nat)
    requires a <= b
    ensures a * c <= b * c
  {
    if a < b {
      MulMonotone(a, b - 1, c);
      assert (b - 1) * c + c == b * c;
    }
  }

  /** A partial sum against the identity on the left picks out row i of `g`, once k has passed i. */
  lemma {:induction false} DotIdentityLeft(g: Grid, m: nat, n: nat, i: nat, j: nat, k: nat)
    requires IsShape(g, m, n) && i < m && j < n && k <= m
    ensures Dot(Identity(m), g, i, j, k) == if i < k then g[i][j] else 0.0
  {
    if k > 0 {
      DotIdentityLeft(g, m, n, i, j, k - 1);
    }
  }

  /** A partial sum against the identity on the right picks out column j of `g`, once k has passed j. */
  lemma {:induction false} DotIdentityRight(g: Grid, m: nat, n: nat, i: nat, j: nat, k: nat)
    requires IsShape(g, m, n) && i < m && j < n && k <= n
    ensures Dot(g, Identity(n), i, j, k) == if j < k then g[i][j] else 0.0
  {
    if k > 0 {
      DotIdentityRight(g, m, n, i, j, k - 1);
    }
  }

  /** The identity is neutral for the product on both sides. */
  lemma IdentityIsNeutral(g: Grid, m: nat, n: nat)
    requires IsShape(g, m, n)
    ensures Product(Identity(m), g, m, m, n) == g
    ensures Product(g, Identity(n), m, n, n) == g
  {
    var l := Product(Identity(m), g, m, m, n);
    forall i, j | 0 <= i < m && 0 <= j < n
      ensures l[i][j] == g[i][j]
    {
      DotIdentityLeft(g, m, n, i, j, m);
    }
    SameEntries(l, g, m, n);
    var r := Product(g, Identity(n), m, n, n);
    forall i, j | 0 <= i < m && 0 <= j < n
      ensures r[i][j] == g[i][j]
    {
      DotIdentityRight(g, m, n, i, j, n);
    }
    SameEntries(r, g, m, n);
  }

  /** Each partial sum of the product is the matching partial sum of the transposed operands, in swapped order. */
  lemma {:induction false} DotTransposed(a: Grid, b: Grid, m: nat, n: nat, p: nat, i: nat, j: nat, k: nat)
    requires IsShape(a, m, n) && IsShape(b, n, p) && i < m && j < p && k <= n
    ensures Dot(a, b, i, j, k) == Dot(Transposed(b, n, p), Transposed(a, m, n), j, i, k)
  {
    if k > 0 {
      DotTransposed(a, b, m, n, p, i, j, k - 1);
    }
  }

  /** (a·b)ᵀ == bᵀ·aᵀ. */
  lemma TransposeOfProduct(a: Grid, b: Grid, m: nat, n: nat, p: nat)
    requires IsShape(a, m, n) && IsShape(b, n, p)
    ensures Transposed(Product(a, b, m, n, p), m, p)
         == Product(Transposed(b, n, p), Transposed(a, m, n), p, n, m)
  {
    var l := Transposed(Product(a, b, m, n, p), m, p);
    var r := Product(Transposed(b, n, p), Transposed(a, m, n), p, n, m);
    forall j, i | 0 <= j < p && 0 <= i < m
      ensures l[j][i] == r[j][i]
    {
      DotTransposed(a, b, m, n, p, i, j, n);
    }
    SameEntries(l, r, p, m);
  }

  /** Tolerance zero is exact equality. */
  lemma WithinZeroIsEquality(a: Grid, b: Grid)
    requires IsMatrix(a) && IsMatrix(b)
    ensures WithinDelta(a, b, 0.0) <==> a == b
  {
    if WithinDelta(a, b, 0.0) {
      SameEntries(a, b, |a|, |a[0]|);
    }
  }

  /** Tolerance comparison is reflexive for any non-negative delta and symmetric. */
  lemma WithinDeltaReflexiveSymmetric(a: Grid, b: Grid, delta: real)
    requires IsMatrix(a) && IsMatrix(b)
    ensures delta >= 0.0 ==> WithinDelta(a, a, delta)
    ensures WithinDelta(a, b, delta) <==> WithinDelta(b, a, delta)
  {
    if WithinDelta(a, b, delta) {
      assert forall i, j :: 0 <= i < |b| && 0 <= j < |b[0]| ==> AbsDiff(b[i][j], a[i][j]) == AbsDiff(a[i][j], b[i][j]);
    }
    if WithinDelta(b, a, delta) {
      assert forall i, j :: 0 <= i < |a| && 0 <= j < |a[0]| ==> AbsDiff(b[i][j], a[i][j]) == AbsDiff(a[i][j], b[i][j]);
    }
  }

  /** The homogeneous point transform is the product with the column (x, y, z, 1), read off its first three rows. */
  lemma TransformIsHomogeneousProduct(g: Grid, m: nat, v: Vector3D)
    requires IsShape(g, m, 4) && m >= 3
    ensures var p := Product(g, Homogeneous(v), m, 4, 1);
      TransformPoint(g, v) == Vector3D(p[0][0], p[1][0], p[2][0])
  {
    var h := Homogeneous(v);
    forall i | 0 <= i < 3
      ensures Dot(g, h, i, 0, 4) == g[i][0] * v.x + g[i][1] * v.y + g[i][2] * v.z + g[i][3]
    {
      assert Dot(g, h, i, 0, 1) == g[i][0] * v.x;
      assert Dot(g, h, i, 0, 2) == g[i][0] * v.x + g[i][1] * v.y;
      assert Dot(g, h, i, 0, 3) == g[i][0] * v.x + g[i][1] * v.y + g[i][2] * v.z;
    }
  }
}
