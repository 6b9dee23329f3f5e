/** The thrust vector is as long as the reported thrust, and never longer than what the engine can give: an
    ascent's thrust is whole, and a landing burn's is shortened without being turned. The lengths of vectors
    come from exact roots; what the thrust does to the motion is in FlightForces. */
module FlightThrust {
  import opened Attitude
  import opened Flight

  // ---------- Thrust ----------

  lemma NonnegativeProduct(a: real, b: real)
    requires a >= 0.0 && b >= 0.0
    ensures a * b >= 0.0
  {}

  lemma SmallParts(t: real, e: real, n: real)
    requires 0.0 <= e <= t * 0.25 && 0.0 <= n <= t * 0.1
    ensures t * t - e * e - n * n >= 0.0
  {
    assert e * e <= (t * 0.25) * (t * 0.25);
    assert n * n <= (t * 0.1) * (t * 0.1);
    SquareIsNonnegative(t);
    assert (t * 0.25) * (t * 0.25) == 0.0625 * (t * t) && (t * 0.1) * (t * 0.1) == 0.01 * (t * t);
  }

  lemma RemainingThrustCompletes(lib: Library, t: real, e: real, n: real)
    requires Exact(lib) && 0.0 <= e <= t * 0.25 && 0.0 <= n <= t * 0.1
    ensures var u := RemainingThrust(lib, t, e, n); u >= 0.0 && e * e + n * n + u * u == t * t
  {
    SmallParts(t, e, n);
    assert SqrtAt(lib, t * t - e * e - n * n);
  }

  /** Ascent splits the engine's thrust without losing or gaining any of it. */
  lemma AscentThrustIsWhole(c: Config, lib: Library, mass: real, t: real)
    requires Sensible(c) && Exact(lib) && mass > 0.0 && t >= 0.0
    ensures var f := AscentThrust(c, lib, mass, t);
      Magnitude(lib, f) == t && f.up >= 0.0 && f.east >= 0.0 && f.north >= 0.0
  {
    var f := AscentThrust(c, lib, mass, t);
    NonnegativeProduct(mass, c.ascentHorizontalAcceleration);
    NonnegativeProduct(mass, c.ascentCrossrangeAcceleration);
    RemainingThrustCompletes(lib, t, f.east, f.north);
    MagnitudeIs(lib, f, t);
  }

  lemma BrakingIsNonnegative(altitude: real, velocity: real)
    ensures Braking(altitude, velocity) >= 0.0
  {
    SquareIsNonnegative(velocity);
    var room := 2.0 * Max(altitude, 1.0);
    assert room >= 2.0;
    assert velocity * velocity / room >= 0.0;
  }

  lemma RequestedUp(c: Config, mass: real, position: Vector, velocity: Vector)
    requires Sensible(c) && mass > 0.0
    ensures RequestedThrust(c, mass, position, velocity).up > 0.0
  {
    BrakingIsNonnegative(position.up, velocity.up);
    Positive(mass, c.gravity + Braking(position.up, velocity.up));
  }

  lemma Shortened(lib: Library, f: Vector, limit: real)
    requires Exact(lib) && 0.0 <= limit < Magnitude(lib, f) && f.up >= 0.0
    ensures var k := limit / Magnitude(lib, f);
      0.0 <= k <= 1.0 && Magnitude(lib, Scaled(f, k)) == limit && 0.0 <= f.up * k <= f.up
  {
    var m := Magnitude(lib, f);
    var k := limit / m;
    assert k * m == limit;
    assert 0.0 <= k <= 1.0;
    MagnitudeScales(lib, f, k);
  }

  // Shortened to what is available without being turned, or as it is.
  lemma SaturatedThrust(lib: Library, f: Vector, available: real) returns (k: real)
    requires Exact(lib) && available >= 0.0 && f.up >= 0.0
    ensures 0.0 <= k <= 1.0 && Saturated(lib, f, available) == Scaled(f, k)
    ensures 0.0 <= Saturated(lib, f, available).up <= f.up
    ensures Magnitude(lib, Saturated(lib, f, available)) == Min(available, Magnitude(lib, f))
  {
    var m := Magnitude(lib, f);
    if m > available {
      Shortened(lib, f, available);
      k := available / m;
    } else {
      k := 1.0;
    }
  }

  /** The landing burn asks for what guidance wants, shortened without turning it when the engine cannot
      give it: the thrust is the smaller of the request and the maximum. */
  lemma LandingThrustSaturates(c: Config, lib: Library, s: State, loss: bool) returns (k: real)
    requires Sensible(c) && Exact(lib) && s.mass > 0.0
    ensures 0.0 <= k <= 1.0
    ensures var f, wanted := LandingThrust(c, lib, s, loss), RequestedThrust(c, s.mass, s.position, s.velocity);
      && f == Scaled(wanted, k) && 0.0 <= f.up <= wanted.up
      && Magnitude(lib, f) == Min(Available(c, loss), Magnitude(lib, wanted))
  {
    RequestedUp(c, s.mass, s.position, s.velocity);
    k := SaturatedThrust(lib, RequestedThrust(c, s.mass, s.position, s.velocity), Available(c, loss));
  }
}
