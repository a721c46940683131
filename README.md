# Spatial math core of `lemon.engine.math`, modelled in Dafny

This project models three pieces of the engine's math package and proves
properties of them over exact (real-number) arithmetic:

- **`Matrix`**: a mutable rows×columns grid of numbers with an
  "unmodifiable" variant. It is modelled as the class `Matrices.Matrix` over
  a `const data: array2<real>`, plus a `const unmodifiable` flag that stands
  for the anonymous subclass built by `unmodifiableMatrix`. Every method is
  proved against the pure grid operations of module `Grids`: the product, the
  transpose, column-major layout, the identity and tolerance equality. The
  mutators (`clear`, both `set`s) have `modifies` frames and state exactly
  which cells change. The errors the source throws on purpose are returned
  as values:
  - a dimension mismatch becomes `CannotMultiply` with both shapes;
  - a mutation of an unmodifiable matrix becomes `CannotModify`.
- **`Vector3D`**: an immutable 3-tuple. It is modelled as the datatype
  `Vectors.Vector3D`, with its arithmetic, cross and dot products and the
  `with…` family as member functions, plus algebraic lemmas about them.
  `putInArray` and `putInBuffer` are methods that write into a caller's array
  or buffer.
- **`InterpolatedCameraByTime`**: a small state machine whose only state is
  the one-way `done` flag. It is modelled as the class
  `Cameras.InterpolatedCameraByTime`.
  - The clock's reading is a parameter `now`, in milliseconds.
  - Quaternion slerp is a function parameter.
  - The two cameras are value snapshots (`Cameras.Camera`).

Files:

| file | module | contents |
|---|---|---|
| `wrappers.dfy` | `Wrappers` | `Outcome` and `Result` |
| `float_buffer.dfy` | `Buffers` | the write side of a float buffer, as a growing sequence |
| `vector3d.dfy` | `Vectors` | `Vector3D`, `Vector2D` and their lemmas |
| `grid.dfy` | `Grids` | matrices as values (`seq<seq<real>>`) and their lemmas |
| `matrix.dfy` | `Matrices` | the `Matrix` class and the static operations |
| `interpolated_camera.dfy` | `Cameras` | the interpolating camera |

## Model

| member | source | states |
|---|---|---|
| Vectors.Vector3D.Of | src/main/java/lemon/engine/math/Vector3D.java:18-20 | the vector built has exactly the given components |
| Vectors.Vector3D.OfCopy | src/main/java/lemon/engine/math/Vector3D.java:22-24 | a component-by-component copy equals the original vector |
| Vectors.Vector3D.LengthSquared | src/main/java/lemon/engine/math/Vector3D.java:106-117 | the squared length is the dot product of the vector with itself, and it is never negative |
| Vectors.Vector3D.DistanceSquared | src/main/java/lemon/engine/math/Vector3D.java:125-130 | the squared distance to (x, y, z) is the squared length of `this − of(x, y, z)`, and it is never negative |
| Vectors.Vector3D.PutInArray | src/main/java/lemon/engine/math/Vector3D.java:64-69 | indices 0, 1 and 2 get x, y and z, as far as the array reaches; no other index changes; the write succeeds exactly when the array holds at least three values |
| Vectors.Vector3D.PutInBuffer | src/main/java/lemon/engine/math/Vector3D.java:57-62 | the buffer gains exactly x, y, z, in that order, after what it held |
| Vectors.CrossProductAnticommutes | src/main/java/lemon/engine/math/Vector3D.java:45-50 | a × b == −(b × a) |
| Vectors.CrossProductIsOrthogonal | src/main/java/lemon/engine/math/Vector3D.java:45-50 | a × b is perpendicular to both a and b (zero dot product), and a × a is the zero vector |
| Vectors.AddSubtractInverse | src/main/java/lemon/engine/math/Vector3D.java:76-84 | subtracting b undoes adding b, and adding b undoes subtracting b |
| Vectors.AddCommutesWithZero | src/main/java/lemon/engine/math/Vector3D.java:76-84 | addition commutes, `ZERO` is neutral, and a − a is `ZERO` |
| Vectors.DivideUndoesMultiply | src/main/java/lemon/engine/math/Vector3D.java:86-104 | componentwise and scalar division by non-zero values undo the matching multiplication; `ONE` and 1 are neutral for multiplication |
| Vectors.ScalarIsComponentwise | src/main/java/lemon/engine/math/Vector3D.java:71-94 | scaling by s is componentwise multiplication by (s, s, s) and `operate` with c ↦ c·s; `operate` with the identity map changes nothing |
| Vectors.DotProductCommutes | src/main/java/lemon/engine/math/Vector3D.java:114-117 | a · b == b · a |
| Vectors.DistanceSquaredSymmetric | src/main/java/lemon/engine/math/Vector3D.java:125-130 | the squared distance from a to b equals that from b to a, and is zero from a point to itself |
| Vectors.WithZeroChangesOnlyNamedComponent | src/main/java/lemon/engine/math/Vector3D.java:140-150 | `withZeroX/Y/Z` zero the named component, and putting the old value back restores the vector, so no other component changed |
| Vectors.WithReplacesOnlyNamedComponent | src/main/java/lemon/engine/math/Vector3D.java:152-162 | `withX/Y/Z(a)` set the named component to a and agree with the original everywhere else; setting a component to its own value changes nothing |
| Vectors.WithOnlyDecomposes | src/main/java/lemon/engine/math/Vector3D.java:164-174 | the three `withOnly` parts add up to the vector, and each `withOnly` part plus the matching `withZero` vector is the vector |
| Vectors.ProjectionsKeepNamedComponents | src/main/java/lemon/engine/math/Vector3D.java:132-138 | `toXYVector` is (x, y) and `toXZVector` is (x, z); each ignores the dropped component |
| Grids.AbsDiff | src/main/java/lemon/engine/math/Matrix.java:175 | the absolute difference is non-negative and zero exactly when the two values are equal |
| Grids.ColumnMajorLayout | src/main/java/lemon/engine/math/Matrix.java:83-89 | for every i < m and j < n: the column-major sequence of an m×n grid has m·n values, and position j·m + i holds entry (i, j) |
| Grids.TransposeInvolution | src/main/java/lemon/engine/math/Matrix.java:110-119 | transposing twice gives back the original grid |
| Grids.TransposeOfProduct | src/main/java/lemon/engine/math/Matrix.java:110-139 | the transpose of a·b is bᵀ·aᵀ |
| Grids.IdentityIsNeutral | src/main/java/lemon/engine/math/Matrix.java:206-212 | the identity grid is neutral for the product on the left and on the right |
| Grids.WithinZeroIsEquality | src/main/java/lemon/engine/math/Matrix.java:146-181 | tolerance equality with delta 0 holds exactly when the grids are equal |
| Grids.WithinDeltaReflexiveSymmetric | src/main/java/lemon/engine/math/Matrix.java:166-181 | tolerance equality is reflexive for any non-negative delta, and symmetric |
| Grids.TransformIsHomogeneousProduct | src/main/java/lemon/engine/math/Matrix.java:102-108 | the point transform is the product with the column (x, y, z, 1), read off its first three rows |
| Matrices.MessagesNameTheProblem | src/main/java/lemon/engine/math/Matrix.java:13-14 | example: the message for a 2×3 by 4×2 product reads "You cannot multiply [2 x 3] by [4 x 2]"; the modification message is "Cannot Modify Matrix" |
| Matrices.MessagesWriteWholeNumbers | src/main/java/lemon/engine/math/Matrix.java:14 | example: a two-digit dimension (12) appears in full in the message |
| Matrices.DecimalStringRoundTrip | src/main/java/lemon/engine/math/Matrix.java:14 | for every natural number, the `%d` text is a non-empty string of digits, without a leading zero unless the number is zero, whose decimal value is the number |
| Matrices.MessageDeterminesError | src/main/java/lemon/engine/math/Matrix.java:13-14 | two errors with the same message are the same error: the mismatch message determines all four dimensions, and it never equals the modification message |
| Matrices.CopyOf | src/main/java/lemon/engine/math/Matrix.java:25-32 | the copy is a new array with the same shape and the same entries as its source |
| Matrices.Matrix.constructor | src/main/java/lemon/engine/math/Matrix.java:21-23 | a new m×n matrix is all zeros, modifiable, and owns a fresh array |
| Matrices.Matrix.Square | src/main/java/lemon/engine/math/Matrix.java:17-19 | a new size×size matrix is all zeros |
| Matrices.Matrix.FromData | src/main/java/lemon/engine/math/Matrix.java:25-32 | the matrix holds the values of the given array, in an array of its own |
| Matrices.Matrix.Copy | src/main/java/lemon/engine/math/Matrix.java:34-36 | a copy equals its source and owns a fresh array |
| Matrices.Matrix.UnmodifiableCopy | src/main/java/lemon/engine/math/Matrix.java:187-204 | the wrapper equals its source, is flagged unmodifiable, and owns a fresh array |
| Matrices.Matrix.Rows | src/main/java/lemon/engine/math/Matrix.java:62-64 | the row count is the number of rows of the matrix's value |
| Matrices.Matrix.Columns | src/main/java/lemon/engine/math/Matrix.java:66-68 | the column count is the length of row 0 of the matrix's value |
| Matrices.Matrix.Get | src/main/java/lemon/engine/math/Matrix.java:58-60 | `get(m, n)` is entry (m, n) of the matrix's value |
| Matrices.Matrix.Clear | src/main/java/lemon/engine/math/Matrix.java:38-44 | a modifiable matrix becomes all zeros; an unmodifiable one fails with `CannotModify` and does not change |
| Matrices.Matrix.Set | src/main/java/lemon/engine/math/Matrix.java:46-48 | on a modifiable matrix, cell (m, n) gets the value and no other cell changes; an unmodifiable one fails with `CannotModify` and does not change, for any natural indices, in range or not |
| Matrices.Matrix.SetAll | src/main/java/lemon/engine/math/Matrix.java:50-56 | every cell (i, j) gets the argument's old entry (i, j), even when the argument shares this matrix's array; an unmodifiable matrix fails and does not change |
| Matrices.Matrix.PutInBuffer | src/main/java/lemon/engine/math/Matrix.java:83-89 | the buffer gains exactly the column-major sequence of the entries after what it held (see `Grids.ColumnMajorLayout` for the index mapping) |
| Matrices.Matrix.Multiply | src/main/java/lemon/engine/math/Matrix.java:91-100 | fails exactly when this matrix's column count differs from the argument's row count, with an error naming both shapes; otherwise returns a new modifiable matrix equal to the product |
| Matrices.Matrix.MultiplyVector | src/main/java/lemon/engine/math/Matrix.java:102-108 | the result is the first three rows applied to (x, y, z, 1); see `Grids.TransformIsHomogeneousProduct` |
| Matrices.Matrix.Transpose | src/main/java/lemon/engine/math/Matrix.java:110-119 | returns a new columns×rows matrix whose entry (j, i) is entry (i, j) of this one |
| Matrices.Matrix.Equals | src/main/java/lemon/engine/math/Matrix.java:146-164 | true exactly when both matrices have the same dimensions and the same entries |
| Matrices.TransposeInto | src/main/java/lemon/engine/math/Matrix.java:121-127 | the transpose is written into the top-left corner of the result and no other cell changes; an unmodifiable result fails, changing nothing, as soon as a write is reached |
| Matrices.SumOfProducts | src/main/java/lemon/engine/math/Matrix.java:132-135 | the inner loop's sum is Σ_{k < right.getRows()} left(i, k)·right(k, j), accumulated from k = 0 |
| Matrices.MultiplyInto | src/main/java/lemon/engine/math/Matrix.java:129-139 | each cell (i, j) of the covered corner gets Σₖ left(i, k)·right(k, j) and no other cell changes; an unmodifiable result fails, changing nothing, as soon as a write is reached |
| Matrices.IsEqual | src/main/java/lemon/engine/math/Matrix.java:166-181 | true exactly when the dimensions agree and every pair of entries differs by at most delta |
| Matrices.UnmodifiableMatrix | src/main/java/lemon/engine/math/Matrix.java:187-204 | the wrapper starts equal to its argument, and every mutator fails on it (see `Clear`, `Set` and `SetAll`) |
| Matrices.GetIdentity | src/main/java/lemon/engine/math/Matrix.java:206-212 | a new size×size matrix with 1 on the diagonal and 0 elsewhere |
| Matrices.Zero4 | src/main/java/lemon/engine/math/Matrix.java:11 | `ZERO_4` is an unmodifiable 4×4 zero matrix on a fresh array |
| Matrices.Identity4 | src/main/java/lemon/engine/math/Matrix.java:12 | `IDENTITY_4` is an unmodifiable 4×4 identity matrix on a fresh array, so callers may attempt to change it |
| Matrices.FrozenIdentityRejectsMutation | src/main/java/lemon/engine/math/Matrix.java:12 | clearing, setting any cell or overwriting `IDENTITY_4` each fail with `CannotModify`, and it stays the identity |
| Matrices.CopyIsIndependent | src/main/java/lemon/engine/math/Matrix.java:25-36 | after copying, writing the source leaves the copy equal to the source's old value |
| Matrices.SourceIsIndependent | src/main/java/lemon/engine/math/Matrix.java:25-36 | after copying, writing the copy leaves the source unchanged |
| Matrices.TransposeTwice | src/main/java/lemon/engine/math/Matrix.java:110-119 | transposing a matrix twice gives a matrix equal to the original |
| Matrices.ExactAndToleranceAgree | src/main/java/lemon/engine/math/Matrix.java:146-181 | `isEqual(a, b, 0)` answers exactly as `equals(a, b)` |
| Cameras.Saturate | src/main/java/lemon/engine/math/InterpolatedCameraByTime.java:27 | the result lies in [0, 1], equals t inside that range, and is the nearer end outside it (an assumed clamp) |
| Cameras.LerpEndpoints | src/main/java/lemon/engine/math/InterpolatedCameraByTime.java:35-38 | `to.subtract(from).multiply(t).add(from)` is `from` at t = 0, `to` at t = 1, and (1 − t)·from + t·to in general |
| Cameras.LerpIsComponentwise | src/main/java/lemon/engine/math/InterpolatedCameraByTime.java:38 | each component of the blend is from + (to − from)·t on that component alone |
| Cameras.HalfWayBlend | src/main/java/lemon/engine/math/InterpolatedCameraByTime.java:38 | example: half way between (0, 0, 0) and (10, 0, 0) lies (5, 0, 0) |
| Cameras.InterpolatedCameraByTime.constructor | src/main/java/lemon/engine/math/InterpolatedCameraByTime.java:13-20 | a new interpolator keeps its two cameras, start and duration, and is not done |
| Cameras.InterpolatedCameraByTime.CalcT | src/main/java/lemon/engine/math/InterpolatedCameraByTime.java:22-28 | returns the elapsed fraction clamped to [0, 1]; `done` becomes true when the unclamped fraction reaches 1 and is never reset |
| Cameras.InterpolatedCameraByTime.Position | src/main/java/lemon/engine/math/InterpolatedCameraByTime.java:30-40 | once done, the destination's position, still done; before that, the linear blend at the clamped fraction, done exactly when the fraction has reached 1 |
| Cameras.InterpolatedCameraByTime.Rotation | src/main/java/lemon/engine/math/InterpolatedCameraByTime.java:42-52 | once done, the destination's rotation, still done; before that, slerp of the two rotations at the clamped fraction of the same clock reading, done exactly when the fraction has reached 1 |
| Cameras.InterpolatedCameraByTime.Done | src/main/java/lemon/engine/math/InterpolatedCameraByTime.java:59-61 | reports the one-way flag; together with the CalcT, Position and Rotation rows, it is false until the fraction first reaches 1 and true from then on |
| Cameras.InterpolatedCameraByTime.ProjectionMatrix | src/main/java/lemon/engine/math/InterpolatedCameraByTime.java:54-57 | always the destination camera's projection, whatever the state |
| Cameras.BlendReachesDestination | src/main/java/lemon/engine/math/InterpolatedCameraByTime.java:22-38 | once the fraction reaches 1, the blended position is the destination's |
| Cameras.BlendStartsAtOrigin | src/main/java/lemon/engine/math/InterpolatedCameraByTime.java:22-38 | up to the start instant, the blended position is the origin camera's |
| Cameras.TransitionLifecycle | src/main/java/lemon/engine/math/InterpolatedCameraByTime.java:22-40 | at the start the camera is at the origin and not done; at the end it is at the destination and done; every later query, whatever the clock reads, keeps it at the destination |

## Left out

- Floating point: every entry and component is an exact `real`. IEEE rounding, overflow, NaN and infinities are not modelled, and every algebraic identity above holds over exact arithmetic only. The `float` accumulation order of the triple loop is kept (`Grids.Dot` sums from k = 0 upward), but rounding is not.
- Vectors.Vector3D.Divide: requires every component of the divisor to be non-zero, because division by zero yields an IEEE infinity or NaN, which the model does not represent.
- Vectors.Vector3D.DivideScalar: requires a non-zero scale, for the same reason.
- Vectors.Vector3D.LengthSquared: states only that the result is non-negative, not that it is zero exactly for the zero vector.
- Vectors.DistanceSquaredSymmetric: likewise states zero distance from a point to itself, but not the converse.
- `Vector3D.ofParsed` (string parsing), `ofRandomUnitVector` (randomness), `normalize` (`UnitVector3D` and a square root), `numDimensions`, `EMPTY_ARRAY` and `toString` are not modelled.
- Vectors.Vector3D.PutInArray: an array shorter than three makes the source throw `ArrayIndexOutOfBoundsException` after writing the components that fit; the model writes the same components and returns `false` instead of throwing.
- `Matrix.toFloatBuffer`: its cached native buffer, `clear` and `flip` are buffer management. `putInBuffer` is modelled against a buffer that is an unbounded growing sequence, so buffer overflow is not modelled.
- `Matrix.toString`, `prettyPrint4x4` (console output) and `assertEquals` (a unit-test helper) are not modelled.
- Matrices.Matrix.Columns: requires at least one row (`Valid()`). The source can build a matrix with zero rows, but `getColumns` then throws on `data[0]`. Every operation that reads the column count therefore requires `Valid()`, and the constructors require a positive row count.
- Implicit index failures (`ArrayIndexOutOfBoundsException`) are preconditions, not error values. This covers `get`/`set` out of range, `set(Matrix)` from a smaller matrix, `multiply(Vector3D)` on a matrix smaller than 3×4, and a too-small result in the static `multiply`/`transpose`. Only the source's explicit throws (`IllegalArgumentException`, `IllegalStateException`) are modelled as errors.
- Matrices.Matrix.Set: the indices are natural numbers, so a negative index is not representable. In the source such a call throws `ArrayIndexOutOfBoundsException` on a modifiable matrix and `IllegalStateException` on an unmodifiable one.
- Matrices.MessagesNameTheProblem and Matrices.MessagesWriteWholeNumbers: each checks one concrete message. The general statements are Matrices.DecimalStringRoundTrip and Matrices.MessageDeterminesError.
- Cameras.HalfWayBlend: one worked example. The general statement is Cameras.LerpIsComponentwise.
- Matrices.Matrix.FromData: builds from a rectangular `array2`. A ragged `float[][]` argument, which the source copies using the length of row 0, is not representable.
- Matrices.Matrix.Transpose: requires at least one column. With zero columns the source builds a 0×rows array and then fails on `data[0]` in the array constructor.
- Matrices.MultiplyInto and Matrices.TransposeInto: require the result not to share its array with an operand. The interleaving of reads and writes in an aliased call is not modelled. MultiplyInto also requires `left` to have at least `right.getRows()` columns, which the source needs to avoid an index failure.
- Matrices.Matrix.Equals: takes a `Matrix`. The `instanceof` test that makes `equals(Object)` false for any other type has no counterpart, and `hashCode` is not part of this model.
- The unmodifiable wrapper is the same class with a flag, not a subclass. Object identity and `getClass` differences are not modelled.
- Cameras.InterpolatedCameraByTime.CalcT: `Instant.now()` is the parameter `now`, an integer count of milliseconds. The truncation of `Duration.toMillis` is assumed to have already happened.
- Cameras.Saturate: `MathUtil.saturate` is not part of this model. It is assumed to clamp to [0, 1].
- Cameras.InterpolatedCameraByTime.constructor: requires a non-zero duration. A zero duration divides by zero in the source (NaN at the start instant, an infinity otherwise), which exact reals do not represent. Negative durations are accepted and give the same ratio as the source.
- `Quaternion`, its `slerp` and `EulerAngles` are not part of this model. Slerp is a function parameter of `Rotation`, and quaternions are bare 4-tuples.
- `Camera` is not part of this model either. The two cameras are value snapshots, so a camera whose position changes while the transition runs (including a nested interpolating camera) is not captured.
- The `FObservable` behind `observableDone()` is a plain boolean field. Subscription and change notification are not modelled. The `from()`/`to()` accessors are the class's public constant fields.
