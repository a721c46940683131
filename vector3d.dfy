/** Immutable 2- and 3-component vectors over exact reals. */
module Vectors {
  import Buffers

  datatype Vector2D = Vector2D(x: real, y: real)

  datatype Vector3D = Vector3D(x: real, y: real, z: real) {

    static function Of(x: real, y: real, z: real): (r: Vector3D)
      ensures r.x == x && r.y == y && r.z == z
    {
      Vector3D(x, y, z)
    }

    /** A component-by-component copy; with value semantics it is the vector itself. */
    static function OfCopy(v: Vector3D): (r: Vector3D)
      ensures r == v
    {
      Vector3D(v.x, v.y, v.z)
    }

    /** The right-handed cross product `this × v`. */
    function CrossProduct(v: Vector3D): Vector3D {
      Vector3D(y * v.z - v.y * z, z * v.x - v.z * x, x * v.y - v.x * y)
    }

    /** Applies `f` to each component. */
    function Operate(f: real -> real): Vector3D {
      Vector3D(f(x), f(y), f(z))
    }

    function Add(v: Vector3D): Vector3D {
      Vector3D(x + v.x, y + v.y, z + v.z)
    }

    function Subtract(v: Vector3D): Vector3D {
      Vector3D(x - v.x, y - v.y, z - v.z)
    }

    /** Componentwise product. */
    function Multiply(v: Vector3D): Vector3D {
      Vector3D(x * v.x, y * v.y, z * v.z)
    }

    function MultiplyScalar(scale: real): Vector3D {
      Vector3D(x * scale, y * scale, z * scale)
    }

    /** Componentwise quotient; a zero component would be an IEEE infinity or NaN. */
    function Divide(v: Vector3D): Vector3D
      requires v.x != 0.0 && v.y != 0.0 && v.z != 0.0
    {
      Vector3D(x / v.x, y / v.y, z / v.z)
    }

    function DivideScalar(scale: real): Vector3D
      requires scale != 0.0
    {
      Vector3D(x / scale, y / scale, z / scale)
    }

    function DotProduct(v: Vector3D): real {
      x * v.x + y * v.y + z * v.z
    }

    function LengthSquared(): (r: real)
      ensures r == DotProduct(this)
      ensures r >= 0.0
    {
      SquareNonNegative(x);
      SquareNonNegative(y);
      SquareNonNegative(z);
      x * x + y * y + z * z
    }

    /** Squared distance from this point to the point (px, py, pz). */
    function DistanceSquared(px: real, py: real, pz: real): (r: real)
      ensures r == Subtract(Of(px, py, pz)).LengthSquared()
      ensures r >= 0.0
    {
      var dx, dy, dz := x - px, y - py, z - pz;
      dx * dx + dy * dy + dz * dz
    }

    function ToXYVector(): Vector2D {
      Vector2D(x, y)
    }

    function ToXZVector(): Vector2D {
      Vector2D(x, z)
    }

    function WithZeroX(): Vector3D { Vector3D(0.0, y, z) }
    function WithZeroY(): Vector3D { Vector3D(x, 0.0, z) }
    function WithZeroZ(): Vector3D { Vector3D(x, y, 0.0) }

    function WithX(value: real): Vector3D { Vector3D(value, y, z) }
    function WithY(value: real): Vector3D { Vector3D(x, value, z) }
    function WithZ(value: real): Vector3D { Vector3D(x, y, value) }

    function WithOnlyX(): Vector3D { Vector3D(x, 0.0, 0.0) }
    function WithOnlyY(): Vector3D { Vector3D(0.0, y, 0.0) }
    function WithOnlyZ(): Vector3D { Vector3D(0.0, 0.0, z) }

    /** The components in buffer order: x, y, z. */
    function Components(): (r: seq<real>)
      ensures |r| == 3
    {
      [x, y, z]
    }

    /**
     * Writes x, y, z to indices 0, 1, 2 of `a`. An array shorter than three
     * gets the components that fit, and then the write out of bounds fails
     * (`ok` is false).
     */
    method PutInArray(a: array<real>) returns (ok: bool)
      modifies a
      ensures ok <==> a.Length >= 3
      ensures forall i :: 0 <= i < a.Length && i < 3 ==> a[i] == Components()[i]
      ensures forall i :: 3 <= i < a.Length ==> a[i] == old(a[i])
    {
      if a.Length < 1 {
        return false;
      }
      a[0] := x;
      if a.Length < 2 {
        return false;
      }
      a[1] := y;
      if a.Length < 3 {
        return false;
      }
      a[2] := z;
      ok := true;
    }

    /** Appends x, y, z to `buffer`, in that order. */
    method PutInBuffer(buffer: Buffers.FloatBuffer)
      modifies buffer
      ensures buffer.contents == old(buffer.contents) + Components()
    {
      buffer.Put(x);
      buffer.Put(y);
      buffer.Put(z);
    }
  }

  lemma SquareNonNegative(a: real)
    ensures a * a >= 0.0
  {
    if a < 0.0 {
      assert a * a == (-a) * (-a);
    }
  }

  const Zero := Vector3D(0.0, 0.0, 0.0)
  const One := Vector3D(1.0, 1.0, 1.0)

  /** `a × b == −(b × a)`. */
  lemma CrossProductAnticommutes(a: Vector3D, b: Vector3D)
    ensures a.CrossProduct(b) == b.CrossProduct(a).MultiplyScalar(-1.0)
  {
  }

  /** The cross product is perpendicular to both of its operands, and `a × a` is zero. */
  lemma CrossProductIsOrthogonal(a: Vector3D, b: Vector3D)
    ensures a.DotProduct(a.CrossProduct(b)) == 0.0
    ensures b.DotProduct(a.CrossProduct(b)) == 0.0
    ensures a.CrossProduct(a) == Zero
  {
  }

  /** Subtracting what was added gives back the original vector, and the other way round. */
  lemma AddSubtractInverse(a: Vector3D, b: Vector3D)
    ensures a.Add(b).Subtract(b) == a
    ensures a.Subtract(b).Add(b) == a
  {
  }

  /** Addition is commutative and has `Zero` as its neutral element. */
  lemma AddCommutesWithZero(a: Vector3D, b: Vector3D)
    ensures a.Add(b) == b.Add(a)
    ensures a.Add(Zero) == a
    ensures a.Subtract(a) == Zero
  {
  }

  /** Componentwise and scalar division undo the matching multiplication. */
  lemma DivideUndoesMultiply(a: Vector3D, b: Vector3D, s: real)
    requires b.x != 0.0 && b.y != 0.0 && b.z != 0.0
    requires s != 0.0
    ensures a.Multiply(b).Divide(b) == a
    ensures a.MultiplyScalar(s).DivideScalar(s) == a
    ensures a.Multiply(One) == a && a.MultiplyScalar(1.0) == a
  {
  }

  /** Scalar multiplication is componentwise multiplication by a constant vector, and `Operate` of the same map. */
  lemma ScalarIsComponentwise(a: Vector3D, s: real)
    ensures a.MultiplyScalar(s) == a.Multiply(Vector3D(s, s, s))
    ensures a.MultiplyScalar(s) == a.Operate(c => c * s)
    ensures a.Operate(c => c) == a
  {
  }

  lemma DotProductCommutes(a: Vector3D, b: Vector3D)
    ensures a.DotProduct(b) == b.DotProduct(a)
  {
  }

  /** The squared distance is symmetric, and zero from a point to itself. */
  lemma DistanceSquaredSymmetric(a: Vector3D, b: Vector3D)
    ensures a.DistanceSquared(b.x, b.y, b.z) == b.DistanceSquared(a.x, a.y, a.z)
    ensures a.DistanceSquared(a.x, a.y, a.z) == 0.0
  {
  }

  /** `withZeroX/Y/Z` set the named component to zero; putting the old value back restores the vector. */
  lemma WithZeroChangesOnlyNamedComponent(v: Vector3D)
    ensures v.WithZeroX().x == 0.0 && v.WithZeroX().WithX(v.x) == v
    ensures v.WithZeroY().y == 0.0 && v.WithZeroY().WithY(v.y) == v
    ensures v.WithZeroZ().z == 0.0 && v.WithZeroZ().WithZ(v.z) == v
  {
  }

  /** `withX/Y/Z(a)` set the named component to `a` and agree with `v` once that component is zeroed. */
  lemma WithReplacesOnlyNamedComponent(v: Vector3D, a: real)
    ensures v.WithX(a).x == a && v.WithX(a).WithZeroX() == v.WithZeroX()
    ensures v.WithY(a).y == a && v.WithY(a).WithZeroY() == v.WithZeroY()
    ensures v.WithZ(a).z == a && v.WithZ(a).WithZeroZ() == v.WithZeroZ()
    ensures v.WithX(v.x) == v && v.WithY(v.y) == v && v.WithZ(v.z) == v
  {
  }

  /** The three single-axis parts add up to the vector, and each is the complement of the matching `withZero`. */
  lemma WithOnlyDecomposes(v: Vector3D)
    ensures v.WithOnlyX().Add(v.WithOnlyY()).Add(v.WithOnlyZ()) == v
    ensures v.WithOnlyX().Add(v.WithZeroX()) == v
    ensures v.WithOnlyY().Add(v.WithZeroY()) == v
    ensures v.WithOnlyZ().Add(v.WithZeroZ()) == v
  {
  }

  /** The XY projection ignores z and the XZ projection ignores y. */
  lemma ProjectionsKeepNamedComponents(v: Vector3D)
    ensures v.ToXYVector() == Vector2D(v.x, v.y) && v.ToXZVector() == Vector2D(v.x, v.z)
    ensures v.ToXYVector() == v.WithZeroZ().ToXYVector()
    ensures v.ToXZVector() == v.WithZeroY().ToXZVector()
  {
  }
}
