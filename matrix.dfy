/**
 * A mutable rows×columns matrix stored in a two-dimensional array, with an
 * "unmodifiable" variant whose mutators always fail.
 */
module Matrices {
  import opened Wrappers
  import opened Grids
  import opened Vectors
  import Buffers

  /** The two errors `Matrix` raises on purpose. */
  datatype MatrixError =
    | CannotMultiply(leftRows: nat, leftColumns: nat, rightRows: nat, rightColumns: nat)
    | CannotModify

  function DecimalString(n: nat): string {
    if n < 10 then ["0123456789"[n]] else DecimalString(n / 10) + ["0123456789"[n % 10]]
  }

  /** The text of each error, as the source formats it. */
  function Message(e: MatrixError): string {
    match e
    case CannotModify => "Cannot Modify Matrix"
    case CannotMultiply(a, b, c, d) =>
      "You cannot multiply [" + DecimalString(a) + " x " + DecimalString(b)
        + "] by [" + DecimalString(c) + " x " + DecimalString(d) + "]"
  }

  /** Example: a dimension mismatch names both shapes, rows first, left operand first. */
  lemma MessagesNameTheProblem()
    ensures Message(CannotMultiply(2, 3, 4, 2)) == "You cannot multiply [2 x 3] by [4 x 2]"
    ensures Message(CannotModify) == "Cannot Modify Matrix"
  {
    assert DecimalString(2) == "2" && DecimalString(3) == "3" && DecimalString(4) == "4";
  }

  /** Example: dimensions of more than one digit are written out in full, most significant digit first. */
  lemma MessagesWriteWholeNumbers()
    ensures Message(CannotMultiply(4, 12, 3, 4)) == "You cannot multiply [4 x 12] by [3 x 4]"
  {
    assert DecimalString(12) == "12";
    assert DecimalString(3) == "3" && DecimalString(4) == "4";
  }

  predicate IsDigit(c: char) {
    '0' <= c <= '9'
  }

  predicate AllDigits(s: string) {
    forall i :: 0 <= i < |s| ==> IsDigit(s[i])
  }

  /** The number a string of decimal digits denotes, read most significant digit first. */
  function DecimalValue(s: string): nat
    requires AllDigits(s)
  {
    if |s| == 0 then 0 else DecimalValue(s[..|s| - 1]) * 10 + ((s[|s| - 1] as int) - ('0' as int))
  }

  /** Digit `d` of "0123456789" is the character whose code is that of '0' plus d. */
  lemma DigitCharacter(d: nat)
    requires d < 10
    ensures "0123456789"[d] as int == '0' as int + d
  {
  }

  /**
   * `DecimalString` writes n as `%d` does: a non-empty run of decimal digits,
   * with no leading zero, that reads back as n.
   */
  lemma {:induction false} DecimalStringRoundTrip(n: nat)
    ensures |DecimalString(n)| > 0 && AllDigits(DecimalString(n))
    ensures DecimalValue(DecimalString(n)) == n
    ensures n > 0 ==> DecimalString(n)[0] != '0'
  {
    var s := DecimalString(n);
    if n < 10 {
      DigitCharacter(n);
    } else {
      DecimalStringRoundTrip(n / 10);
      DigitCharacter(n % 10);
      assert s[..|s| - 1] == DecimalString(n / 10);
      assert s[0] == DecimalString(n / 10)[0];
    }
  }

  /** A run of digits followed by a text that starts with a non-digit splits in one way only. */
  lemma SplitAtNonDigit(s1: string, t1: string, s2: string, t2: string)
    requires AllDigits(s1) && AllDigits(s2)
    requires |t1| > 0 && !IsDigit(t1[0]) && |t2| > 0 && !IsDigit(t2[0])
    requires s1 + t1 == s2 + t2
    ensures s1 == s2 && t1 == t2
  {
    var k := if |s1| < |s2| then |s1| else |s2|;
    assert IsDigit((s1 + t1)[k]) <==> k < |s1|;
    assert IsDigit((s2 + t2)[k]) <==> k < |s2|;
    assert s1 == (s1 + t1)[..|s1|] && s2 == (s2 + t2)[..|s2|];
    assert t1 == (s1 + t1)[|s1|..] && t2 == (s2 + t2)[|s2|..];
  }

  lemma CancelPrefix(p: string, x: string, y: string)
    requires p + x == p + y
    ensures x == y
  {
    assert x == (p + x)[|p|..] && y == (p + y)[|p|..];
  }

  /** The dimension-mismatch text after its fixed opening, grouped from the right. */
  function MismatchTail(a: nat, b: nat, c: nat, d: nat): string {
    DecimalString(a) + (" x " + (DecimalString(b) + ("] by [" + (DecimalString(c) + (" x " + (DecimalString(d) + "]"))))))
  }

  lemma MismatchMessageParts(a: nat, b: nat, c: nat, d: nat)
    ensures Message(CannotMultiply(a, b, c, d)) == "You cannot multiply [" + MismatchTail(a, b, c, d)
  {
  }

  lemma {:induction false} MismatchTailDetermines(a1: nat, b1: nat, c1: nat, d1: nat, a2: nat, b2: nat, c2: nat, d2: nat)
    requires MismatchTail(a1, b1, c1, d1) == MismatchTail(a2, b2, c2, d2)
    ensures a1 == a2 && b1 == b2 && c1 == c2 && d1 == d2
  {
    DecimalStringRoundTrip(a1); DecimalStringRoundTrip(b1); DecimalStringRoundTrip(c1); DecimalStringRoundTrip(d1);
    DecimalStringRoundTrip(a2); DecimalStringRoundTrip(b2); DecimalStringRoundTrip(c2); DecimalStringRoundTrip(d2);
    var z1, z2 := DecimalString(d1) + "]", DecimalString(d2) + "]";
    var w1, w2 := DecimalString(c1) + (" x " + z1), DecimalString(c2) + (" x " + z2);
    var q1, q2 := DecimalString(b1) + ("] by [" + w1), DecimalString(b2) + ("] by [" + w2);
    SplitAtNonDigit(DecimalString(a1), " x " + q1, DecimalString(a2), " x " + q2);
    CancelPrefix(" x ", q1, q2);
    SplitAtNonDigit(DecimalString(b1), "] by [" + w1, DecimalString(b2), "] by [" + w2);
    CancelPrefix("] by [", w1, w2);
    SplitAtNonDigit(DecimalString(c1), " x " + z1, DecimalString(c2), " x " + z2);
    CancelPrefix(" x ", z1, z2);
    SplitAtNonDigit(DecimalString(d1), "]", DecimalString(d2), "]");
  }

  /**
   * The message names the error completely: two errors with the same text are
   * the same error, so the text of a dimension mismatch determines all four
   * dimensions.
   */
  lemma MessageDeterminesError(e1: MatrixError, e2: MatrixError)
    requires Message(e1) == Message(e2)
    ensures e1 == e2
  {
    match (e1, e2)
    case (CannotMultiply(a1, b1, c1, d1), CannotMultiply(a2, b2, c2, d2)) =>
      MismatchMessageParts(a1, b1, c1, d1);
      MismatchMessageParts(a2, b2, c2, d2);
      CancelPrefix("You cannot multiply [", MismatchTail(a1, b1, c1, d1), MismatchTail(a2, b2, c2, d2));
      MismatchTailDetermines(a1, b1, c1, d1, a2, b2, c2, d2);
    case (CannotMultiply(a1, b1, c1, d1), CannotModify) =>
      MismatchMessageParts(a1, b1, c1, d1);
    case (CannotModify, CannotMultiply(a2, b2, c2, d2)) =>
      MismatchMessageParts(a2, b2, c2, d2);
    case (CannotModify, CannotModify) =>
  }

  /** The contents of a two-dimensional array, row by row. */
  function GridOf(a: array2<real>): (g: Grid)
    reads a
    ensures IsShape(g, a.Length0, a.Length1)
  {
    seq(a.Length0, i requires 0 <= i < a.Length0 reads a =>
      seq(a.Length1, j requires 0 <= j < a.Length1 reads a => a[i, j]))
  }

  /** A fresh array with the same shape and contents as `src`. */
  method CopyOf(src: array2<real>) returns (a: array2<real>)
    ensures fresh(a)
    ensures GridOf(a) == GridOf(src)
  {
    a := new real[src.Length0, src.Length1];
    for i := 0 to src.Length0
      invariant forall r, c :: 0 <= r < i && 0 <= c < src.Length1 ==> a[r, c] == src[r, c]
    {
      for j := 0 to src.Length1
        invariant forall r, c :: 0 <= r < i && 0 <= c < src.Length1 ==> a[r, c] == src[r, c]
        invariant forall c :: 0 <= c < j ==> a[i, c] == src[i, c]
      {
        a[i, j] := src[i, j];
      }
    }
    SameEntries(GridOf(a), GridOf(src), src.Length0, src.Length1);
  }

  class Matrix {
    const data: array2<real>
    /** Set for the wrappers made by `UnmodifiableMatrix`: every mutator fails on them. */
    const unmodifiable: bool

    /** At least one row, so that the column count is defined. */
    predicate Valid() {
      data.Length0 > 0
    }

    /** The abstract value of the matrix. */
    function Entries(): (g: Grid)
      reads data
      ensures IsShape(g, data.Length0, data.Length1)
      ensures Valid() ==> IsMatrix(g)
    {
      GridOf(data)
    }

    /** An m×n matrix of zeros. */
    constructor (m: nat, n: nat)
      requires m > 0
      ensures Valid() && !unmodifiable && fresh(data)
      ensures Entries() == Zeros(m, n)
    {
      data := new real[m, n]((i, j) => 0.0);
      unmodifiable := false;
      new;
      SameEntries(Entries(), Zeros(m, n), m, n);
    }

    /** A size×size matrix of zeros. */
    constructor Square(size: nat)
      requires size > 0
      ensures Valid() && !unmodifiable && fresh(data)
      ensures Entries() == Zeros(size, size)
    {
      data := new real[size, size]((i, j) => 0.0);
      unmodifiable := false;
      new;
      SameEntries(Entries(), Zeros(size, size), size, size);
    }

    /** A matrix holding a copy of the array `src`. */
    constructor FromData(src: array2<real>)
      requires src.Length0 > 0
      ensures Valid() && !unmodifiable && fresh(data)
      ensures Entries() == GridOf(src)
    {
      var copied := CopyOf(src);
      data := copied;
      unmodifiable := false;
    }

    /** A modifiable deep copy of `matrix`. */
    constructor Copy(matrix: Matrix)
      requires matrix.Valid()
      ensures Valid() && !unmodifiable && fresh(data)
      ensures Entries() == matrix.Entries()
    {
      var copied := CopyOf(matrix.data);
      data := copied;
      unmodifiable := false;
    }

    /** An unmodifiable deep copy of `matrix`. */
    constructor UnmodifiableCopy(matrix: Matrix)
      requires matrix.Valid()
      ensures Valid() && unmodifiable && fresh(data)
      ensures Entries() == matrix.Entries()
    {
      var copied := CopyOf(matrix.data);
      data := copied;
      unmodifiable := true;
    }

    function Rows(): (r: nat)
      reads data
      ensures r == |Entries()|
    {
      data.Length0
    }

    function Columns(): (r: nat)
      reads data
      requires Valid()
      ensures r == |Entries()[0]|
    {
      data.Length1
    }

    function Get(m: nat, n: nat): (r: real)
      reads data
      requires m < Rows() && n < Columns()
      ensures r == Entries()[m][n]
    {
      data[m, n]
    }

    /** Sets every entry to zero; fails, changing nothing, on an unmodifiable matrix. */
    method Clear() returns (r: Outcome<MatrixError>)
      requires Valid()
      modifies data
      ensures r == if unmodifiable then Fail(CannotModify) else Pass
      ensures unmodifiable ==> unchanged(data)
      ensures !unmodifiable ==> Entries() == Zeros(Rows(), Columns())
    {
      if unmodifiable {
        return Fail(CannotModify);
      }
      for i := 0 to data.Length0
        invariant forall r, c :: 0 <= r < i && 0 <= c < data.Length1 ==> data[r, c] == 0.0
      {
        for j := 0 to data.Length1
          invariant forall r, c :: 0 <= r < i && 0 <= c < data.Length1 ==> data[r, c] == 0.0
          invariant forall c :: 0 <= c < j ==> data[i, c] == 0.0
        {
          data[i, j] := 0.0;
        }
      }
      SameEntries(Entries(), Zeros(Rows(), Columns()), Rows(), Columns());
      r := Pass;
    }

    /** Sets entry (m, n) and nothing else; fails, changing nothing, on an unmodifiable matrix. */
    method Set(m: nat, n: nat, value: real) returns (r: Outcome<MatrixError>)
      requires Valid()
      requires !unmodifiable ==> m < Rows() && n < Columns()
      modifies data
      ensures r == if unmodifiable then Fail(CannotModify) else Pass
      ensures unmodifiable ==> unchanged(data)
      ensures !unmodifiable ==> data[m, n] == value
      ensures forall i, j :: 0 <= i < Rows() && 0 <= j < Columns() && (i != m || j != n) ==>
        data[i, j] == old(data[i, j])
    {
      if unmodifiable {
        return Fail(CannotModify);
      }
      data[m, n] := value;
      r := Pass;
    }

    /**
     * Copies entry (i, j) of `matrix` into every cell (i, j) of this matrix; fails,
     * changing nothing, on an unmodifiable matrix.
     */
    method SetAll(matrix: Matrix) returns (r: Outcome<MatrixError>)
      requires Valid() && matrix.Valid()
      requires !unmodifiable ==> matrix.Rows() >= Rows() && matrix.Columns() >= Columns()
      modifies data
      ensures r == if unmodifiable then Fail(CannotModify) else Pass
      ensures unmodifiable ==> unchanged(data)
      ensures !unmodifiable ==> forall i, j :: 0 <= i < Rows() && 0 <= j < Columns() ==>
        data[i, j] == old(matrix.data[i, j])
    {
      if unmodifiable {
        return Fail(CannotModify);
      }
      for i := 0 to data.Length0
        invariant forall r, c :: 0 <= r < i && 0 <= c < data.Length1 ==> data[r, c] == old(matrix.data[r, c])
        invariant forall r, c :: i <= r < matrix.data.Length0 && 0 <= c < matrix.data.Length1 ==>
          matrix.data[r, c] == old(matrix.data[r, c])
      {
        for j := 0 to data.Length1
          invariant forall r, c :: 0 <= r < i && 0 <= c < data.Length1 ==> data[r, c] == old(matrix.data[r, c])
          invariant forall c :: 0 <= c < j ==> data[i, c] == old(matrix.data[i, c])
          invariant forall r, c :: i <= r < matrix.data.Length0 && 0 <= c < matrix.data.Length1 && (r != i || c >= j) ==>
            matrix.data[r, c] == old(matrix.data[r, c])
        {
          data[i, j] := matrix.Get(i, j);
        }
      }
      r := Pass;
    }

    /** Appends the entries to `buffer` column by column, each column top to bottom. */
    method PutInBuffer(buffer: Buffers.FloatBuffer)
      requires Valid()
      modifies buffer
      ensures buffer.contents == old(buffer.contents) + ColumnMajor(Entries(), Rows(), Columns())
    {
      for j := 0 to Columns()
        invariant buffer.contents == old(buffer.contents) + ColumnMajor(Entries(), Rows(), j)
      {
        for i := 0 to Rows()
          invariant buffer.contents == old(buffer.contents) + ColumnMajor(Entries(), Rows(), j)
            + Column(Entries(), Rows(), j)[..i]
        {
          buffer.Put(Get(i, j));
          assert Column(Entries(), Rows(), j)[..i + 1] == Column(Entries(), Rows(), j)[..i] + [Get(i, j)];
        }
        assert Column(Entries(), Rows(), j)[..Rows()] == Column(Entries(), Rows(), j);
      }
    }

    /**
     * The product `this · matrix`, or the dimension-mismatch error naming both
     * shapes when the column count of this matrix is not the row count of `matrix`.
     */
    method Multiply(matrix: Matrix) returns (r: Result<Matrix, MatrixError>)
      requires Valid() && matrix.Valid()
      ensures r.Err? <==> Columns() != matrix.Rows()
      ensures r.Err? ==> r.error == CannotMultiply(Rows(), Columns(), matrix.Rows(), matrix.Columns())
      ensures r.Ok? ==> fresh(r.value) && fresh(r.value.data) && r.value.Valid() && !r.value.unmodifiable
      ensures r.Ok? ==> r.value.Entries() == Product(Entries(), matrix.Entries(), Rows(), Columns(), matrix.Columns())
    {
      if Columns() != matrix.Rows() {
        return Err(CannotMultiply(Rows(), Columns(), matrix.Rows(), matrix.Columns()));
      }
      var product := new Matrix(Rows(), matrix.Columns());
      var o := MultiplyInto(product, this, matrix);
      var p := Product(Entries(), matrix.Entries(), Rows(), Columns(), matrix.Columns());
      SameEntries(product.Entries(), p, Rows(), matrix.Columns());
      r := Ok(product);
    }

    /** The homogeneous point transform: the first three rows applied to (x, y, z, 1). */
    function MultiplyVector(v: Vector3D): (r: Vector3D)
      reads data
      requires Rows() >= 3 && Columns() >= 4
      ensures r == TransformPoint(Entries(), v)
    {
      Vector3D.Of(
        data[0, 0] * v.x + data[0, 1] * v.y + data[0, 2] * v.z + data[0, 3],
        data[1, 0] * v.x + data[1, 1] * v.y + data[1, 2] * v.z + data[1, 3],
        data[2, 0] * v.x + data[2, 1] * v.y + data[2, 2] * v.z + data[2, 3])
    }

    /** A new columns×rows matrix with entry (j, i) equal to entry (i, j) of this one. */
    method Transpose() returns (r: Matrix)
      requires Valid() && Columns() > 0
      ensures fresh(r) && fresh(r.data) && r.Valid() && !r.unmodifiable
      ensures r.Entries() == Transposed(Entries(), Rows(), Columns())
    {
      var newData := new real[data.Length1, data.Length0];
      for i := 0 to data.Length0
        invariant forall a, b :: 0 <= a < i && 0 <= b < data.Length1 ==> newData[b, a] == data[a, b]
      {
        for j := 0 to data.Length1
          invariant forall a, b :: 0 <= a < i && 0 <= b < data.Length1 ==> newData[b, a] == data[a, b]
          invariant forall b :: 0 <= b < j ==> newData[b, i] == data[i, b]
        {
          newData[j, i] := data[i, j];
        }
      }
      r := new Matrix.FromData(newData);
      SameEntries(r.Entries(), Transposed(Entries(), Rows(), Columns()), Columns(), Rows());
    }

    /** Exact equality: same dimensions and equal entries, which is equality of the abstract values. */
    method Equals(o: Matrix) returns (r: bool)
      requires Valid() && o.Valid()
      ensures r <==> Entries() == o.Entries()
    {
      var rows, columns := Rows(), Columns();
      if rows != o.Rows() || columns != o.Columns() {
        return false;
      }
      for i := 0 to rows
        invariant forall a, b :: 0 <= a < i && 0 <= b < columns ==> data[a, b] == o.data[a, b]
      {
        for j := 0 to columns
          invariant forall a, b :: 0 <= a < i && 0 <= b < columns ==> data[a, b] == o.data[a, b]
          invariant forall b :: 0 <= b < j ==> data[i, b] == o.data[i, b]
        {
          if data[i, j] != o.Get(i, j) {
            assert Entries()[i][j] != o.Entries()[i][j];
            return false;
          }
        }
      }
      SameEntries(Entries(), o.Entries(), rows, columns);
      r := true;
    }
  }

  /**
   * Writes the transpose of `operand` into the top-left corner of `result`,
   * leaving any other cell alone; fails, changing nothing, once it reaches a
   * write into an unmodifiable `result`.
   */
  method TransposeInto(result: Matrix, operand: Matrix) returns (r: Outcome<MatrixError>)
    requires result.Valid() && operand.Valid()
    requires !result.unmodifiable ==> result.Rows() >= operand.Columns() && result.Columns() >= operand.Rows()
    requires result.data != operand.data
    modifies result.data
    ensures r == if result.unmodifiable && operand.Columns() > 0 then Fail(CannotModify) else Pass
    ensures result.unmodifiable ==> unchanged(result.data)
    ensures !result.unmodifiable ==> forall a, b :: 0 <= a < result.Rows() && 0 <= b < result.Columns() ==>
      result.data[a, b] == if a < operand.Columns() && b < operand.Rows() then operand.data[b, a] else old(result.data[a, b])
  {
    for i := 0 to operand.Rows()
      invariant result.unmodifiable ==> unchanged(result.data) && (i == 0 || operand.Columns() == 0)
      invariant !result.unmodifiable ==> forall a, b :: 0 <= a < result.Rows() && 0 <= b < result.Columns() ==>
        result.data[a, b] == if a < operand.Columns() && b < i then operand.data[b, a] else old(result.data[a, b])
    {
      for j := 0 to operand.Columns()
        invariant result.unmodifiable ==> unchanged(result.data) && j == 0
        invariant !result.unmodifiable ==> forall a, b :: 0 <= a < result.Rows() && 0 <= b < result.Columns() ==>
          result.data[a, b] == if (a < operand.Columns() && b < i) || (a < j && b == i) then operand.data[b, a] else old(result.data[a, b])
      {
        var o := result.Set(j, i, operand.Get(i, j));
        if o.Fail? {
          return o;
        }
      }
    }
    r := Pass;
  }

  /** The inner loop of the product: Σ_{k < right.Rows()} left(i, k)·right(k, j), summed from k = 0. */
  method SumOfProducts(left: Matrix, right: Matrix, i: nat, j: nat) returns (sum: real)
    requires left.Valid() && right.Valid()
    requires i < left.Rows() && j < right.Columns() && left.Columns() >= right.Rows()
    ensures sum == Dot(left.Entries(), right.Entries(), i, j, right.Rows())
  {
    sum := 0.0;
    for k := 0 to right.Rows()
      invariant sum == Dot(left.Entries(), right.Entries(), i, j, k)
    {
      sum := sum + left.Get(i, k) * right.Get(k, j);
    }
  }

  /**
   * Writes into `result` the products of the first `left.Rows()` rows of `left`
   * with the first `right.Columns()` columns of `right`, summing over the
   * `right.Rows()` inner terms; leaves any other cell of `result` alone; fails,
   * changing nothing, once it reaches a write into an unmodifiable `result`.
   */
  method MultiplyInto(result: Matrix, left: Matrix, right: Matrix) returns (r: Outcome<MatrixError>)
    requires result.Valid() && left.Valid() && right.Valid()
    requires left.Columns() >= right.Rows()
    requires !result.unmodifiable ==> result.Rows() >= left.Rows() && result.Columns() >= right.Columns()
    requires result.data != left.data && result.data != right.data
    modifies result.data
    ensures r == if result.unmodifiable && right.Columns() > 0 then Fail(CannotModify) else Pass
    ensures result.unmodifiable ==> unchanged(result.data)
    ensures !result.unmodifiable ==> forall a, b :: 0 <= a < result.Rows() && 0 <= b < result.Columns() ==>
      result.data[a, b] ==
        if a < left.Rows() && b < right.Columns() then Dot(left.Entries(), right.Entries(), a, b, right.Rows())
        else old(result.data[a, b])
  {
    for i := 0 to left.Rows()
      invariant result.unmodifiable ==> unchanged(result.data) && (i == 0 || right.Columns() == 0)
      invariant !result.unmodifiable ==> forall a, b :: 0 <= a < result.Rows() && 0 <= b < result.Columns() ==>
        result.data[a, b] ==
          if a < i && b < right.Columns() then Dot(left.Entries(), right.Entries(), a, b, right.Rows())
          else old(result.data[a, b])
    {
      for j := 0 to right.Columns()
        invariant result.unmodifiable ==> unchanged(result.data) && j == 0
        invariant !result.unmodifiable ==> forall a, b :: 0 <= a < result.Rows() && 0 <= b < result.Columns() ==>
          result.data[a, b] ==
            if (a < i && b < right.Columns()) || (a == i && b < j) then Dot(left.Entries(), right.Entries(), a, b, right.Rows())
            else old(result.data[a, b])
      {
        var sum := SumOfProducts(left, right, i, j);
        var o := result.Set(i, j, sum);
        if o.Fail? {
          return o;
        }
      }
    }
    r := Pass;
  }

  /** Exact when `|a − b| <= delta` for every pair of entries of two equally shaped matrices. */
  method IsEqual(a: Matrix, b: Matrix, delta: real) returns (r: bool)
    requires a.Valid() && b.Valid()
    ensures r == WithinDelta(a.Entries(), b.Entries(), delta)
  {
    var rows, columns := a.Rows(), a.Columns();
    if rows != b.Rows() || columns != b.Columns() {
      return false;
    }
    for i := 0 to rows
      invariant forall p, q :: 0 <= p < i && 0 <= q < columns ==> AbsDiff(a.data[p, q], b.data[p, q]) <= delta
    {
      for j := 0 to columns
        invariant forall p, q :: 0 <= p < i && 0 <= q < columns ==> AbsDiff(a.data[p, q], b.data[p, q]) <= delta
        invariant forall q :: 0 <= q < j ==> AbsDiff(a.data[i, q], b.data[i, q]) <= delta
      {
        if AbsDiff(a.Get(i, j), b.Get(i, j)) > delta {
          return false;
        }
      }
    }
    r := true;
  }

  /** A wrapper equal to `matrix` whose mutators always fail. */
  method UnmodifiableMatrix(matrix: Matrix) returns (r: Matrix)
    requires matrix.Valid()
    ensures fresh(r) && fresh(r.data) && r.Valid() && r.unmodifiable
    ensures r.Entries() == matrix.Entries()
  {
    r := new Matrix.UnmodifiableCopy(matrix);
  }

  /** A size×size matrix with 1 on the diagonal and 0 elsewhere. */
  method GetIdentity(size: nat) returns (r: Matrix)
    requires size > 0
    ensures fresh(r) && fresh(r.data) && r.Valid() && !r.unmodifiable
    ensures r.Entries() == Identity(size)
  {
    r := new Matrix.Square(size);
    assert forall a, b :: 0 <= a < size && 0 <= b < size ==> r.data[a, b] == r.Entries()[a][b];
    for i := 0 to size
      invariant forall a, b :: 0 <= a < size && 0 <= b < size ==>
        r.data[a, b] == if a == b && a < i then 1.0 else 0.0
    {
      var o := r.Set(i, i, 1.0);
    }
    SameEntries(r.Entries(), Identity(size), size, size);
  }

  /** The shared constant `ZERO_4`: an unmodifiable 4×4 zero matrix. */
  method Zero4() returns (r: Matrix)
    ensures fresh(r) && fresh(r.data) && r.Valid() && r.unmodifiable
    ensures r.Entries() == Zeros(4, 4)
  {
    var m := new Matrix.Square(4);
    r := UnmodifiableMatrix(m);
  }

  /** The shared constant `IDENTITY_4`: an unmodifiable 4×4 identity matrix. */
  method Identity4() returns (r: Matrix)
    ensures fresh(r) && fresh(r.data) && r.Valid() && r.unmodifiable
    ensures r.Entries() == Identity(4)
  {
    var m := GetIdentity(4);
    r := UnmodifiableMatrix(m);
  }

  /**
   * The shared constants cannot be changed: clearing, setting a cell (even one
   * outside the matrix) or overwriting the whole of `IDENTITY_4` is refused and
   * leaves it the identity.
   */
  method FrozenIdentityRejectsMutation(m: nat, n: nat, value: real, other: Matrix)
    returns (id: Matrix, cleared: Outcome<MatrixError>, written: Outcome<MatrixError>, overwritten: Outcome<MatrixError>)
    requires other.Valid()
    ensures cleared == Fail(CannotModify) && written == Fail(CannotModify) && overwritten == Fail(CannotModify)
    ensures id.Valid() && id.Entries() == Identity(4)
  {
    id := Identity4();
    cleared := id.Clear();
    written := id.Set(m, n, value);
    overwritten := id.SetAll(other);
  }

  /** A copy does not share cells with its source: writing the source leaves the copy as it was. */
  method CopyIsIndependent(source: Matrix, m: nat, n: nat, value: real) returns (copy: Matrix)
    requires source.Valid() && !source.unmodifiable && m < source.Rows() && n < source.Columns()
    modifies source.data
    ensures fresh(copy) && copy.Entries() == old(source.Entries())
    ensures source.Get(m, n) == value
  {
    copy := new Matrix.Copy(source);
    var o := source.Set(m, n, value);
  }

  /** Writing the copy leaves its source as it was. */
  method SourceIsIndependent(source: Matrix, m: nat, n: nat, value: real) returns (copy: Matrix)
    requires source.Valid() && m < source.Rows() && n < source.Columns()
    ensures fresh(copy) && copy.Valid() && copy.Rows() == source.Rows() && copy.Columns() == source.Columns()
    ensures copy.Get(m, n) == value
    ensures source.Entries() == old(source.Entries())
  {
    copy := new Matrix.Copy(source);
    var o := copy.Set(m, n, value);
  }

  /** Transposing a matrix twice gives a matrix equal to the original. */
  method TransposeTwice(matrix: Matrix) returns (back: Matrix)
    requires matrix.Valid() && matrix.Columns() > 0
    ensures back.Valid() && back.Entries() == matrix.Entries()
  {
    var once := matrix.Transpose();
    back := once.Transpose();
    TransposeInvolution(matrix.Entries(), matrix.Rows(), matrix.Columns());
  }

  /** With tolerance zero, the tolerance comparison answers exactly as `Equals`. */
  method ExactAndToleranceAgree(a: Matrix, b: Matrix) returns (exact: bool, tolerant: bool)
    requires a.Valid() && b.Valid()
    ensures exact == tolerant
    ensures exact <==> a.Entries() == b.Entries()
  {
    exact := a.Equals(b);
    tolerant := IsEqual(a, b, 0.0);
    WithinZeroIsEquality(a.Entries(), b.Entries());
  }
}
