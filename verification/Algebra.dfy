/** Scalar and small-matrix helpers of the robotics::math namespace.
    Floating-point values are modelled as mathematical reals. */
module Algebra {

  /** Absolute value, as std::abs on a real. */
  function Abs(a: real): (r: real)
    ensures r >= 0.0
    ensures r == a || r == -a
  {
    if a < 0.0 then -a else a
  }

  /** clip_min: raise `command` to at least `minVal`. */
  function ClipMin(command: real, minVal: real): (r: real)
    ensures r >= minVal
    ensures command >= minVal ==> r == command
    ensures command < minVal ==> r == minVal
  {
    if command < minVal then minVal else command
  }

  /** clip_max: lower `command` to at most `maxVal`. */
  function ClipMax(command: real, maxVal: real): (r: real)
    ensures r <= maxVal
    ensures command <= maxVal ==> r == command
    ensures command > maxVal ==> r == maxVal
  {
    if command > maxVal then maxVal else command
  }

  /** clip: the lower bound is tested first, then the upper bound. */
  function Clip(command: real, minVal: real, maxVal: real): (r: real)
    ensures minVal <= maxVal ==> minVal <= r <= maxVal
    ensures minVal <= command <= maxVal ==> r == command
    ensures command < minVal ==> r == minVal
    ensures minVal <= command && command > maxVal ==> r == maxVal
  {
    if command < minVal then minVal
    else if command > maxVal then maxVal
    else command
  }

  lemma ClipMinIdempotent(command: real, minVal: real)
    ensures ClipMin(ClipMin(command, minVal), minVal) == ClipMin(command, minVal)
  {
  }

  lemma ClipMaxIdempotent(command: real, maxVal: real)
    ensures ClipMax(ClipMax(command, maxVal), maxVal) == ClipMax(command, maxVal)
  {
  }

  /** With a well-formed interval, clip is idempotent and agrees with
      clipping below and then above (and the other way round). */
  lemma ClipIsClipMinThenClipMax(command: real, minVal: real, maxVal: real)
    requires minVal <= maxVal
    ensures Clip(command, minVal, maxVal) == ClipMax(ClipMin(command, minVal), maxVal)
    ensures Clip(command, minVal, maxVal) == ClipMin(ClipMax(command, maxVal), minVal)
    ensures Clip(Clip(command, minVal, maxVal), minVal, maxVal) == Clip(command, minVal, maxVal)
  {
  }

  /** With an inverted interval the lower-bound test wins for inputs below
      `minVal`; every other input is sent to `maxVal`, so the result need
      not lie between the two bounds. */
  lemma ClipInvertedBounds(command: real, minVal: real, maxVal: real)
    requires minVal > maxVal
    ensures Clip(command, minVal, maxVal) == if command < minVal then minVal else maxVal
    ensures command < minVal ==> Clip(command, minVal, maxVal) != ClipMax(ClipMin(command, minVal), maxVal)
  {
  }

  /** square: a * a. */
  function Square(a: real): (r: real)
    ensures r >= 0.0
    ensures r == Abs(a) * Abs(a)
  {
    a * a
  }

  /** A square does not see the sign of its argument. */
  lemma SquareEven(a: real)
    ensures Square(-a) == Square(a)
  {
  }

  /** Scalar almostEqual: the error must be strictly below the tolerance;
      a non-positive tolerance accepts no pair, not even equal values. */
  function AlmostEqual(a: real, b: real, tol: real): (r: bool)
    ensures r <==> b - tol < a < b + tol
    ensures r ==> tol > 0.0
  {
    !(Abs(a - b) >= tol)
  }

  /** almostEqual is the strict tolerance test, it is symmetric, an error
      equal to the tolerance is rejected and a non-positive tolerance
      rejects everything. */
  lemma AlmostEqualProperties(a: real, b: real, tol: real)
    ensures AlmostEqual(a, b, tol) <==> -tol < a - b < tol
    ensures AlmostEqual(a, b, tol) == AlmostEqual(b, a, tol)
    ensures Abs(a - b) == tol ==> !AlmostEqual(a, b, tol)
    ensures tol <= 0.0 ==> !AlmostEqual(a, b, tol)
  {
  }

  /** A dense matrix as a sequence of rows. */
  type Matrix = seq<seq<real>>

  predicate IsMatrix(m: Matrix, rows: nat, cols: nat)
  {
    |m| == rows && forall i :: 0 <= i < rows ==> |m[i]| == cols
  }

  /** Entry-wise tolerance test over a rows x cols pair of matrices. */
  ghost predicate EntriesAlmostEqual(a: Matrix, b: Matrix, rows: nat, cols: nat, tol: real)
    requires IsMatrix(a, rows, cols) && IsMatrix(b, rows, cols)
  {
    forall i, j :: 0 <= i < rows && 0 <= j < cols ==> AlmostEqual(a[i][j], b[i][j], tol)
  }

  /** Matrix almostEqual: scans row by row and returns false at the first
      entry whose error reaches the tolerance. Its Eigen assertion demands
      two matrices of the same shape. `at` reports where the scan stopped:
      the first failing entry, or (rows, 0) when every entry passed. */
  method AlmostEqualMatrix(a: Matrix, b: Matrix, rows: nat, cols: nat, tol: real)
    returns (equal: bool, at: (nat, nat))
    requires IsMatrix(a, rows, cols) && IsMatrix(b, rows, cols)
    ensures equal <==> EntriesAlmostEqual(a, b, rows, cols, tol)
    ensures !equal ==> at.0 < rows && at.1 < cols && !AlmostEqual(a[at.0][at.1], b[at.0][at.1], tol)
    ensures !equal ==> forall i, j :: 0 <= i < rows && 0 <= j < cols && (i < at.0 || (i == at.0 && j < at.1))
                          ==> AlmostEqual(a[i][j], b[i][j], tol)
    ensures equal ==> at == (rows, 0)
  {
    var i := 0;
    while i < rows
      invariant 0 <= i <= rows
      invariant forall i', j :: 0 <= i' < i && 0 <= j < cols ==> AlmostEqual(a[i'][j], b[i'][j], tol)
    {
      var j := 0;
      while j < cols
        invariant 0 <= j <= cols
        invariant forall j' :: 0 <= j' < j ==> AlmostEqual(a[i][j'], b[i][j'], tol)
      {
        var error := Abs(a[i][j] - b[i][j]);
        if error >= tol {
          return false, (i, j);
        }
        j := j + 1;
      }
      i := i + 1;
    }
    return true, (rows, 0);
  }

  /** The 1 x 1 branch of pseudoInverse: the reciprocal of the single entry
      when it exceeds the singular-value threshold, zero otherwise. A zero
      entry can only pass a negative threshold; there `pseudoInverse` divides
      by zero, and the model returns zero. */
  function PseudoInverse1x1(m: Matrix, sigmaThreshold: real): (inv: Matrix)
    requires IsMatrix(m, 1, 1)
    ensures IsMatrix(inv, 1, 1)
    ensures m[0][0] > sigmaThreshold && m[0][0] != 0.0 ==> inv[0][0] * m[0][0] == 1.0
    ensures m[0][0] <= sigmaThreshold ==> inv[0][0] == 0.0
  {
    if m[0][0] > sigmaThreshold && m[0][0] != 0.0 then [[1.0 / m[0][0]]] else [[0.0]]
  }

  /** The 1 x 1 result is a Moore-Penrose pseudo-inverse of the thresholded
      entry: m * inv * m == m and inv * m * inv == inv whenever the entry
      passes the threshold, and a non-negative threshold sends every
      non-positive entry to zero. */
  lemma PseudoInverse1x1IsPseudoInverse(m: Matrix, sigmaThreshold: real)
    requires IsMatrix(m, 1, 1)
    ensures var inv := PseudoInverse1x1(m, sigmaThreshold)[0][0];
      m[0][0] > sigmaThreshold ==> m[0][0] * inv * m[0][0] == m[0][0] && inv * m[0][0] * inv == inv
    ensures sigmaThreshold >= 0.0 && m[0][0] <= 0.0 ==> PseudoInverse1x1(m, sigmaThreshold)[0][0] == 0.0
  {
  }

  /** The signed test misses the pseudo-inverse of a negative entry: the
      singular value of [[-2]] is 2, well above a threshold of 0.001, and its
      pseudo-inverse is [[-0.5]], yet the 1 x 1 branch returns [[0]], which
      fails m * inv * m == m. */
  lemma PseudoInverse1x1NegativeEntry()
    ensures var inv := PseudoInverse1x1([[-2.0]], 0.001)[0][0];
      inv == 0.0 && -2.0 * inv * -2.0 != -2.0
  {
  }

  /** The 1 x 1 branch with the threshold applied to the singular value
      |m[0][0]|, as the general branch of pseudoInverse does. */
  function PseudoInverse1x1ByMagnitude(m: Matrix, sigmaThreshold: real): (inv: Matrix)
    requires IsMatrix(m, 1, 1)
    ensures IsMatrix(inv, 1, 1)
    ensures Abs(m[0][0]) <= sigmaThreshold ==> inv[0][0] == 0.0
  {
    if Abs(m[0][0]) > sigmaThreshold && m[0][0] != 0.0 then [[1.0 / m[0][0]]] else [[0.0]]
  }

  /** With the singular-value test every entry whose magnitude passes the
      threshold, negative ones included, gets a Moore-Penrose pseudo-inverse;
      on non-negative entries the corrected branch agrees with the signed one. */
  lemma PseudoInverse1x1ByMagnitudeIsPseudoInverse(m: Matrix, sigmaThreshold: real)
    requires IsMatrix(m, 1, 1)
    ensures Abs(m[0][0]) > sigmaThreshold && m[0][0] != 0.0 ==>
      PseudoInverseIdentities(m[0][0], PseudoInverse1x1ByMagnitude(m, sigmaThreshold)[0][0])
    ensures m[0][0] >= 0.0 ==> PseudoInverse1x1ByMagnitude(m, sigmaThreshold) == PseudoInverse1x1(m, sigmaThreshold)
  {
    if Abs(m[0][0]) > sigmaThreshold && m[0][0] != 0.0 {
      ReciprocalIsPseudoInverse(m[0][0], PseudoInverse1x1ByMagnitude(m, sigmaThreshold)[0][0]);
    }
  }

  /** The two Moore-Penrose identities for 1 x 1 matrices. */
  predicate PseudoInverseIdentities(x: real, inv: real)
  {
    x * inv * x == x && inv * x * inv == inv
  }

  /** The reciprocal of a non-zero real satisfies both Moore-Penrose identities. */
  lemma ReciprocalIsPseudoInverse(x: real, inv: real)
    requires x != 0.0 && inv == 1.0 / x
    ensures PseudoInverseIdentities(x, inv)
  {
    assert inv * x == 1.0;
  }

  /** A 3-vector (Vec3<float>). */
  datatype Vec3 = Vec3(x: real, y: real, z: real)

  /** m * v for a 3 x 3 matrix. */
  function MatVec3(m: Matrix, v: Vec3): Vec3
    requires IsMatrix(m, 3, 3)
  {
    Vec3(m[0][0] * v.x + m[0][1] * v.y + m[0][2] * v.z,
         m[1][0] * v.x + m[1][1] * v.y + m[1][2] * v.z,
         m[2][0] * v.x + m[2][1] * v.y + m[2][2] * v.z)
  }

  /** m^T * v for a 3 x 3 matrix. */
  function TransposeMatVec3(m: Matrix, v: Vec3): Vec3
    requires IsMatrix(m, 3, 3)
  {
    Vec3(m[0][0] * v.x + m[1][0] * v.y + m[2][0] * v.z,
         m[0][1] * v.x + m[1][1] * v.y + m[2][1] * v.z,
         m[0][2] * v.x + m[1][2] * v.y + m[2][2] * v.z)
  }

  const Identity3: Matrix := [[1.0, 0.0, 0.0], [0.0, 1.0, 0.0], [0.0, 0.0, 1.0]]

  lemma TransposeIdentity(v: Vec3)
    ensures IsMatrix(Identity3, 3, 3)
    ensures TransposeMatVec3(Identity3, v) == v
  {
  }
}
