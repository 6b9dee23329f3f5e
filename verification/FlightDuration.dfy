/** How long a default flight without loss takes: it has landed within 30000 steps, 300 seconds. */
module FlightDuration {
  import opened Attitude
  import opened Flight
  import opened FlightThrust
  import opened FlightRun
  import opened FlightProgress
  import opened FlightClimb
  import opened FlightForces
  import opened FlightTouchdown
  import opened FlightBraking

  const TEMPO := 0.09 // of speed to altitude, per second

  // How many steps the burn can take from an altitude: at most 1500 to halve it, and 4900 for the last metre.
  function StepsLeft(h: real): (steps: real)
    ensures steps >= 0.0
    decreases h.Floor
  {
    if h <= 0.0 then 0.0
    else if h < 1.0 then 4900.0 * h
    else if h < 2.0 then 4900.0 + 1500.0 * (h - 1.0)
    else 1500.0 + StepsLeft(h / 2.0)
  }

  lemma {:induction false} AtLeast4900(h: real)
    requires h >= 1.0
    ensures StepsLeft(h) >= 4900.0
    decreases h.Floor
  {
    if h >= 2.0 { AtLeast4900(h / 2.0); }
  }

  lemma AcrossAMetre(h: real, h1: real, u1: real)
    requires 0.0 < h1 < 1.0 <= h < 2.0 && h1 == h - 0.01 * u1 && u1 >= TEMPO * 0.5 * (0.5 + h1)
    ensures 4900.0 * h1 <= 4900.0 + 1500.0 * (h - 1.0) - 1.0
  {}

  lemma AcrossTwoMetres(h: real, h1: real, u1: real)
    requires 0.0 < h1 < 2.0 <= h && h1 == h - 0.01 * u1 && u1 >= SpeedFloor(TEMPO, h1)
    ensures StepsLeft(h1) <= StepsLeft(h) - 1.0
  {
    AtLeast4900(h / 2.0);
    if h >= 4.0 { AtLeast4900(h / 2.0 / 2.0); }
  }

  lemma {:induction false} StepsLeftFall(h: real, h1: real, u1: real)
    requires 0.0 < h1 == h - 0.01 * u1 && u1 >= SpeedFloor(TEMPO, h1) && u1 > 0.0
    ensures StepsLeft(h1) <= StepsLeft(h) - 1.0
    decreases h.Floor
  {
    if h1 >= 2.0 {
      StepsLeftFall(h / 2.0, h1 / 2.0, u1 / 2.0);
    } else if h >= 2.0 {
      AcrossTwoMetres(h, h1, u1);
    } else if h >= 1.0 && h1 < 1.0 {
      AcrossAMetre(h, h1, u1);
    }
  }

  lemma {:induction false} StepsLeftAtMost(h: real, k: nat, p: real)
    requires p == Power(k) && h <= p
    ensures StepsLeft(h) <= 4900.0 + 1500.0 * k as real
    decreases k
  {
    if h >= 2.0 { StepsLeftAtMost(h / 2.0, k - 1, Power(k - 1)); }
  }

  function Power(k: nat): real {
    if k == 0 then 1.0 else 2.0 * Power(k - 1)
  }

  // ---------- The burn ----------

  predicate Promptly(s: State) {
    Softly(s) && -s.velocity.up >= SpeedFloor(TEMPO, s.position.up)
  }

  lemma PromptStep(lib: Library, s: State, t: State)
    requires Exact(lib) && Promptly(s) && t == Next(DEFAULT, lib, s, FIXED_STEP, false)
    ensures t.phase.Landed? || (Promptly(t) && StepsLeft(t.position.up) <= StepsLeft(s.position.up) - 1.0)
  {
    SoftStep(lib, s, t);
    var a := BurnStepBounds(lib, s, false);
    var u, h := -s.velocity.up, s.position.up;
    FloorIsKept(TEMPO, u, h, a);
    if !t.phase.Landed? { StepsLeftFall(h, t.position.up, u - a * 0.01); }
  }

  // ---------- The fall ----------

  predicate Fallen(s: State) {
    Waiting(s) && s.position.up + s.velocity.up * s.velocity.up / 19.6133 - 0.005 * s.velocity.up <= 2406.5
  }

  // Not faster than the energy allows.
  lemma NotFast(h: real, u: real)
    requires u >= 0.0 && h > 0.0 && h + u * u / 19.6133 + 0.005 * u <= 2406.5
    ensures u <= 218.0
  {
    if u > 218.0 {
      Scaling(u, 218.0, u);
      AtLeastQuotient(u * u, 19.6133, 2423.0);
    }
  }

  lemma LowEnough(u: real, h: real)
    requires u >= 138.0 && h + u * u / 19.6133 + 0.005 * u <= 2406.5
    ensures h <= 1437.0
  {
    Scaling(u, 138.0, u);
    AtLeastQuotient(u * u, 19.6133, 970.0);
  }

  // How many more steps the flight can take.
  function CountDown(s: State): real {
    if s.phase.Descent? then 21400.0 + 10.2 * (220.0 + s.velocity.up) else StepsLeft(s.position.up)
  }

  // From a speed u at altitude h the fall goes on or ends at u1 and h1.
  lemma FallGoesOn(d: real, u: real, h: real, u1: real, h1: real)
    requires d >= 7.82 && Falling(d, u, h) && h + u * u / 19.6133 + 0.005 * u <= 2406.5
    requires u1 == u + 0.0980665 && h1 == h - 0.01 * u1
    ensures h1 + u1 * u1 / 19.6133 + 0.005 * u1 <= 2406.5 && u <= 218.0
    ensures 2.0 * d * h1 <= 1.15 * (u1 * u1) ==> h1 <= 1437.0 && u1 >= 138.0
  {
    FallConserves(h, u, u1, h1);
    SquareIsNonnegative(u);
    if h <= 0.0 { NonnegativeProduct(2.0 * d, -h); }
    NotFast(h, u);
    if 2.0 * d * h1 <= 1.15 * (u1 * u1) {
      FastIgnition(d, u1, h1);
      LowEnough(u1, h1);
    }
  }

  lemma FewLeft(h: real)
    requires h <= 1437.0
    ensures StepsLeft(h) <= 21400.0
  {
    assert Power(4) == 16.0 && Power(8) == 256.0;
    StepsLeftAtMost(h, 11, Power(11));
  }

  lemma FallenStep(lib: Library, s: State, t: State)
    requires Exact(lib) && Fallen(s) && t == Next(DEFAULT, lib, s, FIXED_STEP, false)
    ensures (Fallen(t) || Promptly(t)) && CountDown(t) <= CountDown(s) - 1.0
  {
    BestIsStrong(s.mass, 300000.0 * (1.0 / s.mass));
    FallStep(lib, s, t);
    DescentStep(lib, s, false);
    IgnitionExactlyWhen(DEFAULT, lib, s, FIXED_STEP, false, t);
    FallenTo(Best(s.mass), s, t, -s.velocity.up, -t.velocity.up);
  }

  lemma FallenTo(d: real, s: State, t: State, u: real, u1: real)
    requires Fallen(s) && d == Best(s.mass) && d >= 7.82 && u == -s.velocity.up && u1 == -t.velocity.up
    requires u1 == u + 0.0980665 && t.position.up == s.position.up - 0.01 * u1 && t.mass == s.mass
    requires Waiting(t) || (Softly(t) && 2.0 * d * t.position.up <= 1.15 * (u1 * u1))
    ensures (Fallen(t) || Promptly(t)) && CountDown(t) <= CountDown(s) - 1.0
  {
    assert s.velocity.up * s.velocity.up == u * u && t.velocity.up * t.velocity.up == u1 * u1;
    FallGoesOn(d, u, s.position.up, u1, t.position.up);
    if t.phase.LandingBurn? { FewLeft(t.position.up); }
  }

  // ---------- Whole flights ----------

  predicate Prompt(s: State) {
    Fallen(s) || Promptly(s)
  }

  lemma PromptAt(r: Run, n: nat)
    requires IsDefaultRun(r) && !r.schedule(n) && Prompt(r.path(n))
    ensures if r.path(n + 1).phase.Landed? then r.path(n).phase.LandingBurn? && CountDown(r.path(n)) >= 0.0
            else Prompt(r.path(n + 1)) && CountDown(r.path(n + 1)) <= CountDown(r.path(n)) - 1.0
  {
    assert StepsOn(r, n);
    if r.path(n).phase.Descent? {
      FallenStep(r.lib, r.path(n), r.path(n + 1));
    } else {
      PromptStep(r.lib, r.path(n), r.path(n + 1));
    }
  }

  lemma {:induction false} LandsPromptly(r: Run, n: nat) returns (m: nat)
    requires IsDefaultRun(r) && NoLossFrom(r.schedule, n) && Prompt(r.path(n))
    ensures n <= m && (m - n) as real <= CountDown(r.path(n)) && r.path(m + 1).phase.Landed?
    decreases Rank(r.path(n)).Floor
  {
    m := n;
    PromptAt(r, n);
    if !r.path(n + 1).phase.Landed? {
      RankFalls(r, n);
      m := LandsPromptly(r, n + 1);
      assert (m - n) as real == (m - (n + 1)) as real + 1.0;
    }
  }

  lemma StartsFallen(s: State, u: real)
    requires s.phase.Descent? && Light(s) && u == -s.velocity.up && 0.0 <= u <= 0.1
    requires 2398.0 < s.position.up < 2405.3
    ensures Fallen(s) && CountDown(s) <= 23644.0
  {
    StartsFalling(s, u);
    SmallSquare(u, 0.1);
    assert s.velocity.up * s.velocity.up == u * u;
    QuotientAtMost(u * u, 19.6133, 0.01);
  }

  /** A default flight that loses no thrust after it has left the ground has landed within 30000 steps. */
  lemma NominalDuration(r: Run) returns (n: nat)
    requires IsDefaultRun(r) && NoLossFrom(r.schedule, LIFT_OFF)
    ensures n <= 30000 && r.path(n).phase.Landed?
  {
    var k := FullThrustCutoff(r);
    CutoffBand(r, k);
    var m := CoastEndsHigh(r, k + 1);
    EveryStateIsBounded(r, m);
    StartsFallen(r.path(m), -r.path(m).velocity.up);
    n := LandsPromptly(r, m);
    n := n + 1;
  }
}
