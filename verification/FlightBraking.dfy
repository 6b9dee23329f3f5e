/** The landing burn without loss, step by step: with both sides taking what they can the engine still brakes
    by half of k, which keeps the square of the speed within k times the altitude down to a metre, and the
    speed below a line that ends at 2.85 m/s from there; and that the burn is ignited within that bound. */
module FlightBraking {
  import opened Attitude
  import opened Flight
  import opened FlightThrust
  import opened FlightBallistics
  import opened FlightProgress
  import opened FlightClimb
  import opened FlightForces
  import opened FlightEquations

  // ---------- A step of the landing burn, from its forces ----------

  // The upward acceleration asked for is given, or at least half of k is.
  predicate Slows(u: real, h: real, k: real, a: real) {
    var room := if h < 1.0 then 1.0 else h;
    0.0 <= a * room <= 0.525 * (u * u) && (a * room == 0.525 * (u * u) || 2.0 * a >= k)
  }

  // Of a thrust p per mass, at least this is left upward when 4 m/s^2 go to each side.
  lemma LeftUpward(p: real, y: real)
    requires 17.64 <= p <= 20.0 && y >= 0.0 && y * y >= p * p - 32.0
    ensures y >= 0.8725 * p + 0.1275 * 9.80665
  {
    var z := 0.8725 * p + 0.1275 * 9.80665;
    assert z * z == 0.76125625 * (p * p) + 2.0 * 0.8725 * 0.1275 * 9.80665 * p + 0.1275 * 9.80665 * 0.1275 * 9.80665;
    NonnegativeProduct(p - 17.64, p - 17.64);
    assert (p - 17.64) * (p - 17.64) == p * p - 35.28 * p + 311.1696;
    if y < z { Larger(z, y); }
  }

  // The thrust per unit of mass that gives a against gravity.
  function Lift(g: real, a: Vector): Vector {
    Vector(a.east, a.north, g + a.up)
  }

  lemma LiftIs(m: real, i: real, g: real, a: Vector, f: Vector)
    requires i * m == 1.0 && Forces(m, g, a) == f
    ensures Lift(g, a) == Scaled(f, i)
  {
    MassOut(m, i, a.east);
    MassOut(m, i, a.north);
    MassOut(m, i, g + a.up);
  }

  lemma MassOut(m: real, i: real, x: real)
    requires i * m == 1.0
    ensures m * x * i == x
  {
    assert m * x * i == i * m * x;
  }

  // Turned and shortened to the length p.
  predicate Shortens(p: real, q: real, w: Vector, f: Vector) {
    0.0 <= q < 1.0 && f == Scaled(w, q) && Dot(f) == p * p
  }

  lemma ShorterPerMass(i: real, thrust: real, q: real, w: Vector, f: Vector)
    requires Shortens(thrust, q, w, f)
    ensures Shortens(thrust * i, q, Scaled(w, i), Scaled(f, i))
  {
    ScaledDot(f, i);
    Regroup(thrust, i);
    Swapped(w.east, q, i);
    Swapped(w.north, q, i);
    Swapped(w.up, q, i);
  }

  lemma Swapped(x: real, q: real, i: real)
    ensures x * q * i == x * i * q
  {}

  lemma PerMass(m: real, g: real, thrust: real, q: real, a: Vector, b: Vector)
    requires m > 0.0 && Shortens(thrust, q, Forces(m, g, a), Forces(m, g, b))
    ensures Shortens(thrust * (1.0 / m), q, Lift(g, a), Lift(g, b))
  {
    var i := 1.0 / m;
    LiftIs(m, i, g, a, Forces(m, g, a));
    LiftIs(m, i, g, b, Forces(m, g, b));
    ShorterPerMass(i, thrust, q, Forces(m, g, a), Forces(m, g, b));
  }

  lemma SideSquare(x: real, q: real, y: real)
    requires 0.0 <= q < 1.0 && x == q * y && -4.0 <= y <= 4.0
    ensures x * x <= 16.0
  {
    NonnegativeProduct(q, 4.0 - y);
    NonnegativeProduct(q, 4.0 + y);
    NonnegativeProduct(4.0 - x, 4.0 + x);
    assert (4.0 - x) * (4.0 + x) == 16.0 - x * x;
  }

  lemma ShortenedUp(p: real, q: real, w: Vector, f: Vector)
    requires 17.64 <= p <= 20.0 && Shortens(p, q, w, f) && w.up >= 0.0
    requires -4.0 <= w.east <= 4.0 && -4.0 <= w.north <= 4.0
    ensures 0.8725 * p + 0.1275 * 9.80665 <= f.up <= w.up
  {
    SideSquare(f.east, q, w.east);
    SideSquare(f.north, q, w.north);
    NonnegativeProduct(q, w.up);
    NonnegativeProduct(1.0 - q, w.up);
    LeftUpward(p, f.up);
  }

  // The upward part of what is given: what is asked for, or at least half of k.
  predicate GivesUp(k: real, asked: real, up: real) {
    up == asked || 0.5 * k <= up <= asked
  }

  lemma GivenUp(m: real, thrust: real, p: real, a: Vector, b: Vector, q: real)
    requires m > 0.0 && p == thrust * (1.0 / m) && 17.64 <= p <= 20.0 && a.up >= 0.0
    requires -4.0 <= a.east <= 4.0 && -4.0 <= a.north <= 4.0
    requires Given(m, 9.80665, thrust, a, b, q)
    ensures GivesUp(1.745 * (p - 9.80665), a.up, b.up)
  {
    if b != a {
      PerMass(m, 9.80665, thrust, q, a, b);
      ShortenedUp(p, q, Lift(9.80665, a), Lift(9.80665, b));
    }
  }

  lemma AskedParts(s: State, a: Vector, room: real, u: real)
    requires Asked(DEFAULT, s, a) && u == -s.velocity.up && u > 0.0
    requires room == if s.position.up < 1.0 then 1.0 else s.position.up
    ensures -4.0 <= a.east <= 4.0 && -4.0 <= a.north <= 4.0
    ensures a.up >= 0.0 && a.up * room == 0.525 * (u * u)
  {
    AskedIsUpward(a.up, room, s.velocity.up);
  }

  lemma BurnSlows(s: State, thrust: real, p: real, k: real, a: Vector, b: Vector, q: real, u: real)
    requires s.mass > 0.0 && p == thrust * (1.0 / s.mass) && 17.64 <= p <= 20.0 && k == 1.745 * (p - 9.80665)
    requires u == -s.velocity.up && u > 0.0 && Asked(DEFAULT, s, a) && Given(s.mass, 9.80665, thrust, a, b, q)
    ensures Slows(u, s.position.up, k, b.up)
  {
    var room := if s.position.up < 1.0 then 1.0 else s.position.up;
    AskedParts(s, a, room, u);
    GivenUp(s.mass, thrust, p, a, b, q);
    SlowsBy(room, u, s.position.up, k, a.up, b.up);
  }

  lemma SlowsBy(room: real, u: real, h: real, k: real, asked: real, up: real)
    requires room == (if h < 1.0 then 1.0 else h) && asked >= 0.0 && asked * room == 0.525 * (u * u) && k >= 0.0
    requires GivesUp(k, asked, up)
    ensures Slows(u, h, k, up)
  {
    NonnegativeProduct(up, room);
    NonnegativeProduct(asked - up, room);
    assert (asked - up) * room == asked * room - up * room;
  }

  lemma AskedIsUpward(up: real, room: real, v: real)
    requires room >= 1.0 && up * (2.0 * room) == 1.05 * (v * v)
    ensures up >= 0.0 && up * room == 0.525 * (-v * -v)
  {
    SquareIsNonnegative(v);
    assert -v * -v == v * v;
    if up < 0.0 { Positive(-up, 2.0 * room); }
  }

  // ---------- Descent speed, as plain arithmetic ----------

  // The speed is within reach of the brakes: its square is at most k h down to a metre, and from there it
  // falls with the altitude to 2.85 m/s.
  predicate Gentle(k: real, u: real, h: real) {
    u > 0.0 && h > 0.0 && if h >= 1.0 then u * u <= k * h else u <= 2.85 + 1.4 * h
  }

  predicate Strong(k: real) {
    13.66 <= k <= 17.79
  }

  lemma SlowEnough(u: real, room: real, a: real)
    requires u > 0.0 && room >= 1.0 && u <= 100.0 * room && a * room <= 0.525 * (u * u)
    ensures u - 0.01 * a > 0.0
  {
    if a >= 100.0 * u {
      NonnegativeProduct(room, a - 100.0 * u);
      NonnegativeProduct(u, 100.0 * room - u);
      Positive(u, room);
      Excess(u * u, u * room, a * room, room * (a - 100.0 * u), u * (100.0 * room - u));
    }
  }

  lemma Excess(x: real, y: real, z: real, p: real, q: real)
    requires p >= 0.0 && q >= 0.0 && y > 0.0 && p == z - 100.0 * y && q == 100.0 * y - x && x >= 0.0
    ensures z > 0.525 * x
  {}

  // Braking by at least half of u^2 / h keeps u^2 / h from growing.
  lemma RatioKept(u: real, h: real, a: real, rho: real, u1: real, h1: real)
    requires rho * h == u * u && 2.0 * a >= rho && u1 == u - 0.01 * a && u1 > 0.0 && h1 == h - 0.01 * u1
    ensures u1 * u1 <= rho * h1
  {
    assert u * u == u1 * u1 + 0.02 * (a * u1) + 0.0001 * (a * a);
    assert rho * h1 == rho * h - 0.01 * (rho * u1);
    SquareIsNonnegative(a);
    NonnegativeProduct(2.0 * a - rho, u1);
    assert (2.0 * a - rho) * u1 == 2.0 * (a * u1) - rho * u1;
  }

  lemma HalfRatio(u: real, h: real, k: real, a: real, rho: real)
    requires h >= 1.0 && rho * h == u * u && u * u <= k * h && Slows(u, h, k, a)
    ensures 2.0 * a >= rho
  {
    if a * h == 0.525 * (u * u) {
      assert (2.0 * a - 1.05 * rho) * h == 0.0;
      assert 2.0 * a == 1.05 * rho;
      if rho < 0.0 { Positive(-rho, h); SquareIsNonnegative(u); }
    } else if rho > k {
      Positive(rho - k, h);
    }
  }

  lemma GentleAbove(k: real, u: real, h: real, a: real, u1: real, h1: real)
    requires Strong(k) && u > 0.0 && u * u <= k * h && h >= 1.0 && Slows(u, h, k, a)
    requires u1 == u - 0.01 * a && h1 == h - 0.01 * u1
    ensures 0.0 < u1 <= u && h1 > 0.0 && u1 * u1 <= k * h1
  {
    SpeedLimit(k, u, h);
    SlowEnough(u, h, a);
    if a < 0.0 { Positive(-a, h); }
    var rho := u * u / h;
    assert rho * h == u * u;
    HalfRatio(u, h, k, a, rho);
    StaysGentle(u, h, a, rho, k, u1, h1);
  }

  lemma StaysGentle(u: real, h: real, a: real, rho: real, k: real, u1: real, h1: real)
    requires h > 0.0 && h1 > 0.0 && rho * h == u * u && u * u <= k * h && 2.0 * a >= rho
    requires u1 == u - 0.01 * a && u1 > 0.0 && h1 == h - 0.01 * u1
    ensures u1 * u1 <= k * h1
  {
    RatioKept(u, h, a, rho, u1, h1);
    RatioFits(u * u, h, rho, k, h1);
  }

  lemma RatioFits(x: real, h: real, rho: real, k: real, h1: real)
    requires h > 0.0 && h1 > 0.0 && rho * h == x && x <= k * h
    ensures rho * h1 <= k * h1
  {
    if rho > k { Positive(rho - k, h); }
    Scaling(h1, rho, k);
  }

  lemma SpeedLimit(k: real, u: real, h: real)
    requires Strong(k) && u > 0.0 && h >= 1.0 && u * u <= k * h
    ensures u <= 5.0 * h
  {
    Scaling(h, k, 25.0);
    Scaling(h, 1.0, h);
    assert (5.0 * h) * (5.0 * h) == 25.0 * (h * h);
    if u > 5.0 * h { Larger(u, 5.0 * h); }
  }

  // The two bounds meet at a metre.
  lemma Meets(k: real, u: real, h: real)
    requires Strong(k) && 0.0 < h <= 1.0 && u > 0.0 && u * u <= k * h
    ensures u <= 2.85 + 1.4 * h
  {
    var f := 2.85 + 1.4 * h;
    Scaling(h, k, 17.79);
    assert u * u <= 17.79 * h by { assert k * h == h * k; }
    assert f * f == 8.1225 + 7.98 * h + 1.96 * (h * h);
    NonnegativeProduct(1.0 - h, 1.0 - h);
    assert (1.0 - h) * (1.0 - h) == 1.0 - 2.0 * h + h * h;
    if u > f { Larger(u, f); }
  }

  lemma GentleBelow(k: real, u: real, h: real, a: real, u1: real, h1: real)
    requires Strong(k) && 0.0 < u <= 2.85 + 1.4 * h && 0.0 < h < 1.0 && Slows(u, h, k, a)
    requires u1 == u - 0.01 * a && h1 == h - 0.01 * u1
    ensures 0.0 < u1 <= u && u1 <= 2.85 + 1.4 * h1
  {
    var squared := u * u;
    SquareIsNonnegative(u);
    SlowEnough(u, 1.0, a);
    if 1.014 * u > 2.85 + 1.4 * h { Dwarfs(u, squared); }
    FastBrakes(u, h, k, a, squared);
  }

  lemma Dwarfs(u: real, squared: real)
    requires u >= 2.81 && squared == u * u
    ensures squared >= 2.81 * u
  {
    NonnegativeProduct(u, u - 2.81);
  }

  lemma FastBrakes(u: real, h: real, k: real, a: real, squared: real)
    requires 13.66 <= k && 0.0 < u <= 2.85 + 1.4 * h && 0.0 < h < 1.0 && squared >= 0.0
    requires 1.014 * u > 2.85 + 1.4 * h ==> squared >= 2.81 * u
    requires a == 0.525 * squared || 2.0 * a >= k
    ensures 1.014 * (u - 0.01 * a) <= 2.85 + 1.4 * h
  {}

  /** A step keeps the speed gentle, and the last one before the ground starts below 3 m/s. */
  lemma GentleStep(k: real, u: real, h: real, a: real, u1: real, h1: real)
    requires Strong(k) && Gentle(k, u, h) && Slows(u, h, k, a)
    requires u1 == u - 0.01 * a && h1 == h - 0.01 * u1
    ensures u1 > 0.0 && if h1 > 0.0 then Gentle(k, u1, h1) else u < 3.0
  {
    if h >= 1.0 {
      GentleAbove(k, u, h, a, u1, h1);
      if h1 <= 1.0 { Meets(k, u1, h1); }
    } else {
      GentleBelow(k, u, h, a, u1, h1);
    }
  }

  // ---------- The landing burn without loss ----------

  // What the engine can do straight up, less gravity.
  function Best(mass: real): real
    requires mass > 0.0
  {
    300000.0 / mass - 9.80665
  }

  predicate Light(s: State) {
    15000.0 <= s.mass <= 17000.0
  }

  predicate Softly(s: State) {
    s.phase.LandingBurn? && Light(s) && Gentle(1.745 * Best(s.mass), -s.velocity.up, s.position.up)
  }

  lemma BestIsStrong(mass: real, p: real)
    requires 15000.0 <= mass <= 17000.0 && p == 300000.0 * (1.0 / mass)
    ensures 17.64 <= p <= 20.0 && Best(mass) == p - 9.80665 && Strong(1.745 * Best(mass))
  {
    var q := 300000.0 / mass;
    assert mass * q == 300000.0;
    if q < 17.64 { Stretch(mass, q, 17.64); }
    QuotientAtMost(300000.0, mass, 20.0);
    assert p == q;
  }

  lemma AskedExists(c: Config, s: State) returns (a: Vector)
    ensures Asked(c, s, a)
  {
    var x := 2.0 * (if s.position.up < 1.0 then 1.0 else s.position.up);
    var squared := if s.velocity.up < 0.0 then 1.05 * (s.velocity.up * s.velocity.up) else 0.0;
    Restored(x, squared);
    a := Vector(Clamp(0.08 * (c.targetDownrange - s.position.east) - 0.57 * s.velocity.east, -4.0, 4.0),
                Clamp(0.08 * (c.targetCrossrange - s.position.north) - 0.57 * s.velocity.north, -4.0, 4.0),
                squared / x);
  }

  // A step that slows by b lands or keeps the speed gentle.
  lemma GentleLanding(s: State, k: real, squared: real, b: Vector, t: State, u: real)
    requires s.phase.LandingBurn? && Lands(0.01, squared, s, b, t) && u == -s.velocity.up
    requires Strong(k) && Gentle(k, u, s.position.up) && Slows(u, s.position.up, k, b.up)
    ensures if t.phase.Landed? then 0.0 < u < 3.0
            else t.phase.LandingBurn? && t.mass == s.mass && Gentle(k, -t.velocity.up, t.position.up)
  {
    var u1 := u - 0.01 * b.up;
    GentleStep(k, u, s.position.up, b.up, u1, s.position.up - 0.01 * u1);
  }

  lemma SoftStep(lib: Library, s: State, t: State)
    requires Exact(lib) && Softly(s) && t == Next(DEFAULT, lib, s, FIXED_STEP, false)
    ensures if t.phase.Landed? then -3.0 < s.velocity.up < 0.0 else Softly(t)
  {
    var p := 300000.0 * (1.0 / s.mass);
    BestIsStrong(s.mass, p);
    var a := AskedExists(DEFAULT, s);
    var b, q := BurnByForces(DEFAULT, lib, s, FIXED_STEP, false, a, t);
    BurnSlows(s, 300000.0, p, 1.745 * Best(s.mass), a, b, q, -s.velocity.up);
    GentleLanding(s, 1.745 * Best(s.mass), Dot(Forces(s.mass, 9.80665, b)), b, t, -s.velocity.up);
  }

  // What is taken from the descent speed u: 0.0105 u^2 over twice the altitude, or over 2 m below a metre.
  predicate Slowed(v: real, h: real, v1: real) {
    var room := if h < 1.0 then 1.0 else h;
    (v1 - v) * (2.0 * room) == 0.0105 * (v * v) && v < v1
  }

  // The engine has the thrust for a.
  predicate Affords(m: real, p: real, a: Vector) {
    Dot(Forces(m, 9.80665, a)) <= p * p
  }

  lemma GivenInFull(m: real, p: real, a: Vector, b: Vector, q: real)
    requires Given(m, 9.80665, p, a, b, q) && Affords(m, p, a)
    ensures b == a
  {}

  lemma AvailableStep(lib: Library, s: State, loss: bool, a: Vector, t: State) returns (thrust: real)
    requires Exact(lib) && s.phase.LandingBurn? && s.mass >= 15000.0 && Asked(DEFAULT, s, a)
    requires Affords(s.mass, Engine(DEFAULT, loss), a) && t == Next(DEFAULT, lib, s, FIXED_STEP, loss)
    ensures Lands(0.01, thrust, s, a, t)
  {
    var b, q := BurnByForces(DEFAULT, lib, s, FIXED_STEP, loss, a, t);
    GivenInFull(s.mass, Engine(DEFAULT, loss), a, b, q);
    thrust := Dot(Forces(s.mass, 9.80665, b));
  }

  lemma NegativesProduct(x: real, y: real) returns (z: real)
    requires x < 0.0 && y < 0.0
    ensures z == x * y && z > 0.0
  {
    z := x * y;
  }

  lemma SlowedBy(v: real, h: real, v1: real, up: real)
    requires v < 0.0 && v1 == v + up * 0.01
    requires up * (2.0 * (if h < 1.0 then 1.0 else h)) == 1.05 * (v * v)
    ensures Slowed(v, h, v1)
  {
    var x := 2.0 * (if h < 1.0 then 1.0 else h);
    var squared := NegativesProduct(v, v);
    assert up * 0.01 * x == 0.01 * (up * x);
    if up <= 0.0 { NonnegativeProduct(-up, x); }
  }

  // The asked acceleration a over the step.
  lemma SlowsAsAsked(s: State, a: Vector, thrust: real, t: State)
    requires Asked(DEFAULT, s, a) && Lands(0.01, thrust, s, a, t) && t.phase.LandingBurn? && s.velocity.up < 0.0
    ensures Slowed(s.velocity.up, s.position.up, t.velocity.up)
  {
    SlowedBy(s.velocity.up, s.position.up, t.velocity.up, a.up);
  }

  // ---------- Ignition ----------

  // A fall from the target apogee that full thrust can still stop, with the ignition margin to spare.
  predicate Falling(d: real, u: real, h: real) {
    u >= 0.0 && 2.0 * d * h > 1.15 * (u * u) && h + u * u / 19.6133 + 0.005 * u >= 2398.0
  }

  // What a step of the fall does to altitude plus v^2 / 2g, and half a step of the fall.
  lemma FallConserves(h: real, u: real, u1: real, h1: real)
    requires u1 == u + 0.0980665 && h1 == h - 0.01 * u1
    ensures h1 + u1 * u1 / 19.6133 + 0.005 * u1 == h + u * u / 19.6133 + 0.005 * u
  {
    assert u1 * u1 == u * u + 0.196133 * u + 0.0980665 * 0.0980665;
  }

  // The energy of the fall makes for 138 m/s at ignition.
  lemma FastIgnition(d: real, u: real, h: real)
    requires d >= 7.82 && u >= 0.0 && 2.0 * d * h <= 1.15 * (u * u) && h + u * u / 19.6133 + 0.005 * u >= 2398.0
    ensures u >= 138.0
  {
    if u < 138.0 {
      Scaling(u, u, 138.0);
      QuotientAtMost(u * u, 19.6133, 971.0);
      if h > 1402.0 { Scaling(h, 15.64, 2.0 * d); }
    }
  }

  // x is the square of the speed, y is d u and z is d h, before and after.
  lemma MarginLeft(u: real, u1: real, x: real, x1: real, y1: real, z: real, z1: real)
    requires u1 == u + 0.0980665 && x1 == x + 0.196133 * u + 0.0980665 * 0.0980665 && z1 == z - 0.01 * y1
    requires 2.0 * z > 1.15 * x && y1 <= 10.1934 * u1 && x1 >= 130.0 * u1 && x1 >= 0.0
    ensures 1.745 * z1 > x1
  {}

  lemma IgnitionIsGentle(d: real, u: real, h: real, u1: real, h1: real)
    requires 7.82 <= d <= 10.1934 && Falling(d, u, h) && u1 == u + 0.0980665 && h1 == h - 0.01 * u1
    requires 2.0 * d * h1 <= 1.15 * (u1 * u1)
    ensures Gentle(1.745 * d, u1, h1)
  {
    FallConserves(h, u, u1, h1);
    FastIgnition(d, u1, h1);
    AtLeast130(u1, u1 * u1);
    Scaling(u1, d, 10.1934);
    assert u1 * u1 == u * u + 0.196133 * u + 0.0980665 * 0.0980665;
    assert d * h1 == d * h - 0.01 * (d * u1);
    MarginLeft(u, u1, u * u, u1 * u1, d * u1, d * h, d * h1);
    HighEnough(d, u1, h1);
  }

  lemma AtLeast130(u: real, squared: real)
    requires u >= 130.0 && squared == u * u
    ensures squared >= 130.0 * u
  {
    NonnegativeProduct(u, u - 130.0);
  }

  lemma HighEnough(d: real, u: real, h: real)
    requires 7.82 <= d <= 10.1934 && u >= 130.0 && 1.745 * (d * h) > u * u
    ensures h >= 1.0
  {
    Scaling(u, 130.0, u);
    if h < 1.0 { Scaling(d, h, 1.0); }
  }

  // ---------- Whole flights ----------

  predicate Waiting(s: State) {
    s.phase.Descent? && Light(s) && Falling(Best(s.mass), -s.velocity.up, s.position.up)
  }

  lemma FallStep(lib: Library, s: State, t: State)
    requires Exact(lib) && Waiting(s) && t == Next(DEFAULT, lib, s, FIXED_STEP, false)
    ensures Waiting(t) || Softly(t)
  {
    BestIsStrong(s.mass, 300000.0 * (1.0 / s.mass));
    DescentStep(lib, s, false);
    IgnitionExactlyWhen(DEFAULT, lib, s, FIXED_STEP, false, t);
    FallsOn(Best(s.mass), s, t, -s.velocity.up, -t.velocity.up);
  }

  lemma FallsOn(d: real, s: State, t: State, u: real, u1: real)
    requires 7.82 <= d <= 10.1934 && Light(s) && d == Best(s.mass) && t.mass == s.mass
    requires u == -s.velocity.up && u1 == -t.velocity.up && Falling(d, u, s.position.up)
    requires u1 == u + 0.0980665 && t.position.up == s.position.up - 0.01 * u1
    requires t.phase == if t.velocity.up < 0.0
                           && (300000.0 <= s.mass * 9.80665
                               || 2.0 * d * t.position.up <= 1.15 * (t.velocity.up * t.velocity.up))
                        then LandingBurn else Descent
    ensures Waiting(t) || Softly(t)
  {
    assert t.velocity.up * t.velocity.up == u1 * u1;
    FallConserves(s.position.up, u, u1, t.position.up);
    if t.phase.LandingBurn? { IgnitionIsGentle(d, u, s.position.up, u1, t.position.up); }
  }

  lemma CoastEndsBetween(path: nat -> State, n: nat, m: nat, apogee: real)
    requires n < m && Coasting(9.80665, 0.01, path, n, m) && path(m).velocity.up <= 0.0 < path(m - 1).velocity.up
    requires apogee == Apogee(9.80665, path(n)) && apogee >= 2400.0 && path(n).velocity.up <= 256.0
    ensures 2398.0 < path(m).position.up <= apogee && path(m).velocity.up >= -0.1
  {
    ApogeeReached(9.80665, 0.01, path, n, m);
    assert CoastRule(9.80665, 0.01, path, m - 1);
    StillHigh(apogee, path(n).velocity.up, path(m).position.up);
  }

  lemma CoastIsShort(path: nat -> State, n: nat, m: nat)
    requires n < m && Coasting(9.80665, 0.01, path, n, m) && 0.0 < path(m - 1).velocity.up
    requires path(n).velocity.up <= 256.0
    ensures m <= n + 2612
  {
    AfterCoasting(9.80665, 0.01, 0.0980665, 9.80665 * 0.01 * 0.01 / 2.0, path, n, m - 1);
    FewSteps(m - 1 - n, path(n).velocity.up);
  }

  lemma FewSteps(k: nat, v: real)
    requires v - k as real * 0.0980665 > 0.0 && v <= 256.0
    ensures k < 2611
  {}

  lemma StillHigh(apogee: real, v: real, h: real)
    requires apogee >= 2400.0 && v <= 256.0 && h > apogee - v * 0.01 / 2.0 - 9.80665 * 0.01 * 0.01
    ensures h > 2398.0
  {}

  lemma StartsFalling(s: State, u: real)
    requires s.phase.Descent? && Light(s) && u == -s.velocity.up && 0.0 <= u <= 0.1 && s.position.up > 2398.0
    ensures Waiting(s)
  {
    BestIsStrong(s.mass, 300000.0 * (1.0 / s.mass));
    SquareIsNonnegative(u);
    SmallSquare(u, 0.1);
    Quotient(u * u, 19.6133);
    HighForSpeed(Best(s.mass), s.position.up, u * u);
  }

  lemma HighForSpeed(d: real, h: real, squared: real)
    requires d >= 7.8 && h > 2398.0 && squared <= 0.01
    ensures 2.0 * d * h > 1.15 * squared
  {
    Scaling(h, 7.8, d);
    assert 2.0 * d * h == 2.0 * (h * d);
  }

  // x steps, the last of which adds at least 0.000509 x.
  predicate Grown(h: real, x: real) {
    h >= 0.0002545 * (x * (x + 1.0))
  }

  lemma GrowsOn(h: real, x: real, v: real)
    requires Grown(h, x) && v >= 0.0509 * (x + 1.0)
    ensures Grown(h + v * 0.01, x + 1.0)
  {
    assert (x + 1.0) * (x + 1.0 + 1.0) == x * (x + 1.0) + 2.0 * (x + 1.0);
  }

  // 25 seconds of full thrust more than suffice for the target.
  lemma FullThrustReaches(h: real, v: real)
    requires Grown(h, 2500.0) && v >= 0.0509 * 2500.0
    ensures h + v * v / 19.6133 >= 2400.0
  {
    Scaling(v, 127.0, v);
    AtLeastQuotient(v * v, 19.6133, 820.0);
  }
}
