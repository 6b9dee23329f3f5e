/** The vehicle's orientation: normalizing a quaternion, and building the one that turns the vehicle's axis
    exactly onto a thrust. */
module Attitude {
  import opened Binary
  import Doubles

  // std::numeric_limits<double>::epsilon().
  const EPSILON := 1.0 / 4503599627370496.0

  // East is downrange (horizontal), north is crossrange, up is altitude (vertical).
  datatype Vector = Vector(east: real, north: real, up: real)

  const ZERO := Vector(0.0, 0.0, 0.0)

  datatype Quaternion = Quaternion(w: real, x: real, y: real, z: real)

  const IDENTITY := Quaternion(1.0, 0.0, 0.0, 0.0)

  /** The two library functions a step calls, std::sqrt and std::hypot. */
  datatype Library = Library(sqrt: real -> real, hypot: (real, real) -> real)

  ghost predicate SqrtAt(lib: Library, x: real) {
    lib.sqrt(x) >= 0.0 && lib.sqrt(x) * lib.sqrt(x) == x
  }

  ghost predicate HypotAt(lib: Library, a: real, b: real) {
    lib.hypot(a, b) >= 0.0 && lib.hypot(a, b) * lib.hypot(a, b) == a * a + b * b
  }

  ghost predicate Exact(lib: Library) {
    && (forall x :: x >= 0.0 ==> SqrtAt(lib, x))
    && (forall a, b :: HypotAt(lib, a, b))
  }

  function Min(a: real, b: real): real { if b < a then b else a }

  function Max(a: real, b: real): real { if a < b then b else a }

  function Squares(q: Quaternion): real {
    q.w * q.w + q.x * q.x + q.y * q.y + q.z * q.z
  }

  function Normalized(lib: Library, q: Quaternion): Quaternion
    requires Exact(lib)
  {
    var squares := Squares(q);
    if squares <= EPSILON then IDENTITY
    else
      assert SqrtAt(lib, squares) && lib.sqrt(squares) != 0.0;
      var inverse := 1.0 / lib.sqrt(squares);
      Quaternion(q.w * inverse, q.x * inverse, q.y * inverse, q.z * inverse)
  }

  function Magnitude(lib: Library, f: Vector): real {
    lib.hypot(lib.hypot(f.east, f.north), f.up)
  }

  function Scaled(f: Vector, k: real): Vector {
    Vector(f.east * k, f.north * k, f.up * k)
  }

  function Oriented(lib: Library, q: Quaternion, f: Vector): Quaternion {
    var magnitude := Magnitude(lib, f);
    if magnitude <= EPSILON then q
    else
      var scalar := lib.sqrt(Max(0.0, (1.0 + f.up / magnitude) / 2.0));
      if scalar <= EPSILON then Quaternion(0.0, 1.0, 0.0, 0.0)
      else Quaternion(scalar, -(f.north / magnitude) / (2.0 * scalar), f.east / magnitude / (2.0 * scalar), 0.0)
  }

  /** It is what the double after one adds to one. */
  lemma EpsilonIsNextToOne(one: uint64)
    requires one == 0x3FF0_0000_0000_0000
    ensures Doubles.Value(one) == 1.0 && Doubles.Value(one + 1) == 1.0 + EPSILON
  {
    Doubles.NextToOne(one, one + 1, EPSILON);
  }

  // ---------- Square roots ----------

  lemma Positive(x: real, y: real)
    requires x > 0.0 && y > 0.0
    ensures x * y > 0.0
  {}

  lemma Larger(a: real, b: real)
    requires a > b >= 0.0
    ensures a * a > b * b
  {
    Positive(a - b, a + b);
    assert (a - b) * (a + b) == a * a - b * b;
  }

  lemma SameSquare(a: real, b: real)
    requires a >= 0.0 && b >= 0.0 && a * a == b * b
    ensures a == b
  {
    if a < b { Larger(b, a); }
    if b < a { Larger(a, b); }
  }

  lemma SquareIsNonnegative(a: real)
    ensures a * a >= 0.0
  {}

  lemma SqrtOfSquare(lib: Library, a: real)
    requires Exact(lib) && a >= 0.0
    ensures lib.sqrt(a * a) == a
  {
    SquareIsNonnegative(a);
    assert SqrtAt(lib, a * a);
    SameSquare(lib.sqrt(a * a), a);
  }

  function Dot(f: Vector): real {
    f.east * f.east + f.north * f.north + f.up * f.up
  }

  /** The two nested hypotenuses give the Euclidean length. */
  lemma MagnitudeSquared(lib: Library, f: Vector)
    requires Exact(lib)
    ensures var m := Magnitude(lib, f); m >= 0.0 && m * m == Dot(f)
  {
    assert HypotAt(lib, f.east, f.north);
    assert HypotAt(lib, lib.hypot(f.east, f.north), f.up);
  }

  lemma MagnitudeIs(lib: Library, f: Vector, m: real)
    requires Exact(lib) && m >= 0.0 && m * m == Dot(f)
    ensures Magnitude(lib, f) == m
  {
    MagnitudeSquared(lib, f);
    SameSquare(Magnitude(lib, f), m);
  }

  lemma ScaledDot(f: Vector, k: real)
    ensures Dot(Scaled(f, k)) == k * k * Dot(f)
  {
    Regroup(f.east, k);
    Regroup(f.north, k);
    Regroup(f.up, k);
    Distribute(k * k, f.east * f.east, f.north * f.north, f.up * f.up);
  }

  lemma Regroup(a: real, k: real)
    ensures (a * k) * (a * k) == k * k * (a * a)
  {}

  lemma Distribute(k: real, a: real, b: real, c: real)
    ensures k * (a + b + c) == k * a + k * b + k * c
  {}

  lemma MagnitudeScales(lib: Library, f: Vector, k: real)
    requires Exact(lib) && k >= 0.0
    ensures Magnitude(lib, Scaled(f, k)) == k * Magnitude(lib, f)
  {
    var m := Magnitude(lib, f);
    MagnitudeSquared(lib, f);
    ScaledDot(f, k);
    Regroup(m, k);
    assert m * k == k * m;
    MagnitudeIs(lib, Scaled(f, k), k * m);
  }

  lemma UpIsAtMostMagnitude(lib: Library, f: Vector)
    requires Exact(lib)
    ensures f.up <= Magnitude(lib, f)
  {
    var m := Magnitude(lib, f);
    MagnitudeSquared(lib, f);
    SquareIsNonnegative(f.east);
    SquareIsNonnegative(f.north);
    if f.up > m { Larger(f.up, m); }
  }

  // ---------- Unit quaternions ----------

  predicate Unit(q: Quaternion) {
    Squares(q) == 1.0
  }

  /** Normalizing gives a unit quaternion, whatever it is given. */
  lemma NormalizedIsUnit(lib: Library, q: Quaternion)
    requires Exact(lib)
    ensures Unit(Normalized(lib, q))
  {
    var squares := Squares(q);
    if squares > EPSILON {
      assert SqrtAt(lib, squares);
      var r := lib.sqrt(squares);
      var k := 1.0 / r;
      assert k * r == 1.0;
      assert k * k * squares == (k * r) * (k * r);
      Regroup(q.w, k);
      Regroup(q.x, k);
      Regroup(q.y, k);
      Regroup(q.z, k);
      Distribute(k * k, q.w * q.w + q.x * q.x, q.y * q.y, q.z * q.z);
      assert k * k * (q.w * q.w + q.x * q.x) == k * k * (q.w * q.w) + k * k * (q.x * q.x);
    }
  }

  lemma NormalizedKeepsUnit(lib: Library, q: Quaternion)
    requires Exact(lib) && Unit(q)
    ensures Normalized(lib, q) == q
  {
    SqrtOfSquare(lib, 1.0);
    assert lib.sqrt(1.0) == 1.0;
  }

  // ---------- Alignment ----------

  // The image of the body's +z axis.
  function Axis(q: Quaternion): Vector {
    Vector(2.0 * (q.x * q.z + q.w * q.y), 2.0 * (q.y * q.z - q.w * q.x), 1.0 - 2.0 * (q.x * q.x + q.y * q.y))
  }

  // The quaternion update_orientation builds from a unit direction, with s the half-angle cosine.
  lemma DirectionQuaternion(e: real, n: real, u: real, s: real)
    requires e * e + n * n + u * u == 1.0 && u >= 0.0
    requires s >= 0.0 && s * s == (1.0 + u) / 2.0
    ensures s * s >= 0.5 && s > EPSILON
    ensures var q := Quaternion(s, -n / (2.0 * s), e / (2.0 * s), 0.0); Unit(q) && Axis(q) == Vector(e, n, u)
  {
    if s < 0.5 { Larger(0.5, s); }
    var x, y := -n / (2.0 * s), e / (2.0 * s);
    assert x * (2.0 * s) == -n && y * (2.0 * s) == e;
    assert s * x == -n / 2.0 && s * y == e / 2.0;
    HalfAngle(e, n, u, s, x, y);
  }

  lemma HalfAngle(e: real, n: real, u: real, s: real, x: real, y: real)
    requires e * e + n * n + u * u == 1.0 && s * s == (1.0 + u) / 2.0 && s * s >= 0.5
    requires s * x == -n / 2.0 && s * y == e / 2.0
    ensures x * x + y * y == (1.0 - u) / 2.0
  {
    var t, p := s * s, x * x + y * y;
    assert (s * x) * (s * x) == t * (x * x) && (s * y) * (s * y) == t * (y * y);
    assert (-n / 2.0) * (-n / 2.0) == n * n / 4.0 && (e / 2.0) * (e / 2.0) == e * e / 4.0;
    assert t * p == t * (x * x) + t * (y * y);
    assert t * p == (1.0 - u * u) / 4.0;
    assert t * ((1.0 - u) / 2.0) == (1.0 + u) * (1.0 - u) / 4.0 == (1.0 - u * u) / 4.0;
    Cancel(t, p, (1.0 - u) / 2.0);
  }

  lemma Cancel(t: real, a: real, b: real)
    requires t > 0.0 && t * a == t * b
    ensures a == b
  {
    assert t * (a - b) == 0.0;
  }

  function Direction(f: Vector, m: real): Vector
    requires m > 0.0
  {
    Vector(f.east / m, f.north / m, f.up / m)
  }

  lemma DirectionIsUnit(f: Vector, m: real)
    requires m > 0.0 && m * m == Dot(f)
    ensures Dot(Direction(f, m)) == 1.0
  {
    var k := 1.0 / m;
    assert k * m == 1.0;
    assert f.east / m == f.east * k && f.north / m == f.north * k && f.up / m == f.up * k;
    ScaledDot(f, k);
    assert k * k * (m * m) == (k * m) * (k * m);
  }

  lemma HalfIsNonnegative(f: Vector, m: real)
    requires m > 0.0 && f.up >= 0.0
    ensures f.up / m >= 0.0 && Max(0.0, (1.0 + f.up / m) / 2.0) == (1.0 + f.up / m) / 2.0
  {}

  /** For a thrust that is not downward, update_orientation returns a unit quaternion that turns the
      body's axis exactly onto the thrust; a negligible thrust leaves the orientation alone. */
  lemma OrientedAlongThrust(lib: Library, q: Quaternion, f: Vector)
    requires Exact(lib) && f.up >= 0.0
    ensures var m := Magnitude(lib, f);
      if m <= EPSILON then Oriented(lib, q, f) == q
      else Unit(Oriented(lib, q, f)) && Axis(Oriented(lib, q, f)) == Direction(f, m)
  {
    var m := Magnitude(lib, f);
    if m > EPSILON {
      MagnitudeSquared(lib, f);
      DirectionIsUnit(f, m);
      HalfIsNonnegative(f, m);
      var d := Direction(f, m);
      var half := (1.0 + d.up) / 2.0;
      assert SqrtAt(lib, half);
      DirectionQuaternion(d.east, d.north, d.up, lib.sqrt(half));
    }
  }
}
