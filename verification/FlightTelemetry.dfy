/** The telemetry record of a flight state (make_telemetry), and what the server shows of its phase. */
module FlightTelemetry {
  import opened Attitude
  import opened Binary
  import opened ControlServer
  import opened ControlText
  import Doubles
  import opened Flight
  import FlightRun
  import ServerDecoder
  import Wire

  /** The conversions a record needs: to double and single precision, std::sin, and the angle
      std::atan2 gives in degrees. */
  datatype Encoding = Encoding(
    double: real -> uint64, single: real -> uint32, sin: real -> real, degrees: (real, real) -> real)

  // The bytes of flightdeck::protocol::MissionPhase.
  function WirePhase(phase: Phase): uint8 {
    match phase
    case Prelaunch => 0
    case PoweredAscent => 1
    case Coast => 2
    case Descent => 3
    case LandingBurn => 4
    case Landed => 5
  }

  function Doubles3(enc: Encoding, v: Vector): Wire.Doubles3 {
    [enc.double(v.east), enc.double(v.north), enc.double(v.up)]
  }

  function Singles2(enc: Encoding, a: real, b: real): Wire.Floats2 {
    [enc.single(a), enc.single(b)]
  }

  function Singles4(enc: Encoding, q: Quaternion): Wire.Floats4 {
    [enc.single(q.w), enc.single(q.x), enc.single(q.y), enc.single(q.z)]
  }

  function GimbalAngles(enc: Encoding, gimbal: Gimbal): Wire.Floats2 {
    match gimbal
    case Centred => Singles2(enc, 0.0, 0.0)
    case Along(f) => Singles2(enc, enc.degrees(f.east, f.up), enc.degrees(f.north, f.up))
  }

  // Whole microseconds, in 64 bits.
  function Microseconds(time: real): uint64 {
    (time * 1000000.0).Floor % 0x1_0000_0000_0000_0000
  }

  function Wave(enc: Encoding, sequence: uint32, rate: real, amplitude: real): real {
    enc.sin(sequence as real * rate) * amplitude
  }

  // What the navigation sensors show when they are noisy.
  function NoisyPosition(enc: Encoding, p: Vector, sequence: uint32): Vector {
    Vector(p.east + Wave(enc, sequence, 0.137, 3.0), p.north + Wave(enc, sequence, 0.151, 3.0),
           p.up + Wave(enc, sequence, 0.173, 8.0))
  }

  function NoisyVelocity(enc: Encoding, v: Vector, sequence: uint32): Vector {
    Vector(v.east + Wave(enc, sequence, 0.271, 0.6), v.north + Wave(enc, sequence, 0.293, 0.6),
           v.up + Wave(enc, sequence, 0.311, 1.5))
  }

  function MeasuredPosition(enc: Encoding, s: State, sequence: uint32, flags: uint32): Vector {
    if Has(flags, SensorNoise) then NoisyPosition(enc, s.position, sequence) else s.position
  }

  function MeasuredVelocity(enc: Encoding, s: State, sequence: uint32, flags: uint32): Vector {
    if Has(flags, SensorNoise) then NoisyVelocity(enc, s.velocity, sequence) else s.velocity
  }

  /** make_telemetry. Only the measured position and velocity are noisy. */
  function MakeTelemetry(enc: Encoding, s: State, sequence: uint32, flags: uint32): Wire.Telemetry {
    var percent := s.thrust / 300000.0 * 100.0;
    Wire.Telemetry(
      sequence, Microseconds(s.time), WirePhase(s.phase),
      Doubles3(enc, MeasuredPosition(enc, s, sequence, flags)),
      Doubles3(enc, MeasuredVelocity(enc, s, sequence, flags)),
      Singles4(enc, s.orientation), enc.single(percent), enc.single(percent * 0.12),
      GimbalAngles(enc, s.gimbal), Singles2(enc, s.fins.0, s.fins.1), flags,
      Doubles3(enc, s.position), Doubles3(enc, s.velocity))
  }

  lemma MicrosecondsAt(time: real, n: nat)
    requires time == n as real * 0.01
    ensures Microseconds(time) == 10000 * n % 0x1_0000_0000_0000_0000
  {
    assert time * 1000000.0 == (10000 * n) as real;
  }

  // The stamp that the record of state n gets, up to the landing.
  lemma Stamped(enc: Encoding, r: FlightRun.Run, n: nat, sequence: uint32, flags: uint32) returns (stamp: uint64)
    requires FlightRun.IsRun(r) && r.dt == FIXED_STEP && (n == 0 || !r.path(n - 1).phase.Landed?)
    ensures stamp == 10000 * n % 0x1_0000_0000_0000_0000
    ensures stamp == MakeTelemetry(enc, r.path(n), sequence, flags).timestampUs
  {
    FlightRun.ClockCountsSteps(r, n);
    MicrosecondsAt(r.path(n).time, n);
    stamp := Microseconds(r.path(n).time);
  }

  // ---------- The phase the server shows ----------

  predicate SamePhase(phase: Phase, shown: ServerDecoder.MissionPhase) {
    match phase
    case Prelaunch => shown == ServerDecoder.Prelaunch
    case PoweredAscent => shown == ServerDecoder.PoweredAscent
    case Coast => shown == ServerDecoder.Coast
    case Descent => shown == ServerDecoder.Descent
    case LandingBurn => shown == ServerDecoder.LandingBurn
    case Landed => shown == ServerDecoder.Landed
  }

  /** Every packet that the server accepts and whose phase byte is that of a flight phase shows that phase. */
  lemma PhaseShown(packet: seq<uint8>, phase: Phase)
    requires ServerDecoder.DecodeTelemetry(packet).Sample? && packet[18] == WirePhase(phase)
    ensures SamePhase(phase, ServerDecoder.DecodeTelemetry(packet).sample.missionPhase)
  {}

  // The packet made from a flight state shows the server this sample.
  predicate Shows(enc: Encoding, s: State, sequence: uint32, flags: uint32, sample: ServerDecoder.TelemetrySample) {
    ServerDecoder.DecodeTelemetry(Wire.Serialize(MakeTelemetry(enc, s, sequence, flags)))
    == ServerDecoder.Sample(sample)
  }

  /** The sample has the state's phase, the sequence number and the flags that the packet was made from, and the
      true position and velocity. */
  lemma StateShown(enc: Encoding, s: State, sequence: uint32, flags: uint32, sample: ServerDecoder.TelemetrySample)
    requires Shows(enc, s, sequence, flags, sample)
    ensures SamePhase(s.phase, sample.missionPhase) && sample.sequence == sequence && sample.faultFlags == flags
    ensures sample.truthPositionM
         == [enc.double(s.position.east), enc.double(s.position.north), enc.double(s.position.up)]
    ensures sample.truthVelocityMps
         == [enc.double(s.velocity.east), enc.double(s.velocity.north), enc.double(s.velocity.up)]
  {
    SampleIsView(enc, s, sequence, flags, sample);
  }

  lemma SampleIsView(enc: Encoding, s: State, sequence: uint32, flags: uint32, sample: ServerDecoder.TelemetrySample)
    requires Shows(enc, s, sequence, flags, sample)
    ensures var t := MakeTelemetry(enc, s, sequence, flags);
      sample == ServerDecoder.ViewOf(t, ServerDecoder.PHASES[t.missionPhase])
  {
    var t := MakeTelemetry(enc, s, sequence, flags);
    Wire.DeserializeSerialize(t);
    ServerDecoder.DecodersAgree(Wire.Serialize(t));
  }

  /** And its attitude, fins and the gimbal angles of its thrust. */
  lemma ActuatorsShown(enc: Encoding, s: State, sequence: uint32, flags: uint32, sample: ServerDecoder.TelemetrySample)
    requires Shows(enc, s, sequence, flags, sample)
    ensures sample.orientationWxyz == [enc.single(s.orientation.w), enc.single(s.orientation.x),
                                       enc.single(s.orientation.y), enc.single(s.orientation.z)]
    ensures sample.gridFinCommandDeg == [enc.single(s.fins.0), enc.single(s.fins.1)]
    ensures s.gimbal.Centred? ==> sample.gimbalCommandDeg == [enc.single(0.0), enc.single(0.0)]
    ensures s.gimbal.Along? ==> var f := s.gimbal.thrust;
      sample.gimbalCommandDeg == [enc.single(enc.degrees(f.east, f.up)), enc.single(enc.degrees(f.north, f.up))]
  {
    SampleIsView(enc, s, sequence, flags, sample);
  }

  /** Its thrust is shown in percent of 300 kN, and as a chamber pressure of which full thrust makes 12 MPa. */
  lemma ThrustShown(enc: Encoding, s: State, sequence: uint32, flags: uint32, sample: ServerDecoder.TelemetrySample,
                    percent: real)
    requires Shows(enc, s, sequence, flags, sample) && 3000.0 * percent == s.thrust
    ensures sample.thrustPercent == enc.single(percent)
    ensures sample.chamberPressureMpa == enc.single(12.0 * percent / 100.0)
  {
    SampleIsView(enc, s, sequence, flags, sample);
  }

  // x is off by at most the amplitude, and by all of it where the sine is one.
  predicate Off(x: real, truth: real, amplitude: real, sine: real) {
    -amplitude <= x - truth <= amplitude && (sine == 1.0 ==> x == truth + amplitude)
  }

  // Position off by up to 3 m to each side and 8 m upward.
  predicate PositionOff(enc: Encoding, i: real, p: Vector, truth: Vector) {
    && Off(p.east, truth.east, 3.0, enc.sin(i * 0.137)) && Off(p.north, truth.north, 3.0, enc.sin(i * 0.151))
    && Off(p.up, truth.up, 8.0, enc.sin(i * 0.173))
  }

  // Velocity off by up to 0.6 m/s to each side and 1.5 m/s upward.
  predicate VelocityOff(enc: Encoding, i: real, v: Vector, truth: Vector) {
    && Off(v.east, truth.east, 0.6, enc.sin(i * 0.271)) && Off(v.north, truth.north, 0.6, enc.sin(i * 0.293))
    && Off(v.up, truth.up, 1.5, enc.sin(i * 0.311))
  }

  predicate Bounded(sine: real) {
    -1.0 <= sine <= 1.0
  }

  lemma NoiseIs(enc: Encoding, sequence: uint32, p: Vector, v: Vector)
    requires forall x :: Bounded(enc.sin(x))
    ensures PositionOff(enc, sequence as real, NoisyPosition(enc, p, sequence), p)
    ensures VelocityOff(enc, sequence as real, NoisyVelocity(enc, v, sequence), v)
  {
    var i := sequence as real;
    assert Bounded(enc.sin(i * 0.137)) && Bounded(enc.sin(i * 0.151)) && Bounded(enc.sin(i * 0.173));
    assert Bounded(enc.sin(i * 0.271)) && Bounded(enc.sin(i * 0.293)) && Bounded(enc.sin(i * 0.311));
  }

  /** What is measured is the truth, or under noise as far off it as the sensors are. */
  lemma MeasuredShown(enc: Encoding, s: State, sequence: uint32, flags: uint32, sample: ServerDecoder.TelemetrySample)
    returns (p: Vector, v: Vector)
    requires Shows(enc, s, sequence, flags, sample) && forall x :: Bounded(enc.sin(x))
    ensures sample.positionM == [enc.double(p.east), enc.double(p.north), enc.double(p.up)]
    ensures sample.velocityMps == [enc.double(v.east), enc.double(v.north), enc.double(v.up)]
    ensures if Has(flags, SensorNoise) then
              PositionOff(enc, sequence as real, p, s.position) && VelocityOff(enc, sequence as real, v, s.velocity)
            else p == s.position && v == s.velocity
  {
    SampleIsView(enc, s, sequence, flags, sample);
    p, v := MeasuredPosition(enc, s, sequence, flags), MeasuredVelocity(enc, s, sequence, flags);
    NoiseIs(enc, sequence, s.position, s.velocity);
  }

  lemma StampIs(enc: Encoding, s: State, sequence: uint32, flags: uint32, sample: ServerDecoder.TelemetrySample)
    requires Shows(enc, s, sequence, flags, sample)
    ensures sample.timestampUs == Doubles.NumberOf(MakeTelemetry(enc, s, sequence, flags).timestampUs)
  {
    SampleIsView(enc, s, sequence, flags, sample);
  }

  lemma StampKept(stamp: uint64, n: nat)
    requires stamp == 10000 * n % 0x1_0000_0000_0000_0000 && 10000 * n <= 0x20_0000_0000_0000
    ensures Doubles.NumberOf(stamp) == 10000 * n
  {
    Doubles.NumberIsExact(stamp);
  }

  /** The sample of state n is stamped with 10000 n microseconds, as long as a double holds them. */
  lemma StampShown(enc: Encoding, r: FlightRun.Run, n: nat, sequence: uint32, flags: uint32,
                   sample: ServerDecoder.TelemetrySample)
    requires FlightRun.IsRun(r) && r.dt == FIXED_STEP && (n == 0 || !r.path(n - 1).phase.Landed?)
    requires Shows(enc, r.path(n), sequence, flags, sample) && 10000 * n <= 0x20_0000_0000_0000
    ensures sample.timestampUs == 10000 * n
  {
    StampIs(enc, r.path(n), sequence, flags, sample);
    var stamp := Stamped(enc, r, n, sequence, flags);
    StampKept(stamp, n);
  }

  // The place of a phase that the server shows.
  function ShownOrder(phase: ServerDecoder.MissionPhase): nat {
    match phase
    case Prelaunch => 0
    case PoweredAscent => 1
    case Coast => 2
    case Descent => 3
    case LandingBurn => 4
    case Landed => 5
  }

  lemma SameOrder(phase: Phase, shown: ServerDecoder.MissionPhase)
    requires SamePhase(phase, shown)
    ensures ShownOrder(shown) == FlightRun.Order(phase)
  {}

  ghost predicate ShownOf(enc: Encoding, s: State, sample: ServerDecoder.TelemetrySample) {
    exists sequence: uint32, flags: uint32 :: Shows(enc, s, sequence, flags, sample)
  }

  lemma OrderShown(enc: Encoding, s: State, sample: ServerDecoder.TelemetrySample)
    requires ShownOf(enc, s, sample)
    ensures ShownOrder(sample.missionPhase) == FlightRun.Order(s.phase)
  {
    var sequence: uint32, flags: uint32 :| Shows(enc, s, sequence, flags, sample);
    StateShown(enc, s, sequence, flags, sample);
    SameOrder(s.phase, sample.missionPhase);
  }

  /** Along every flight the phases that the server shows never go back, and advance by at most one for each
      step between. */
  lemma ShownPhasesAdvance(enc: Encoding, r: FlightRun.Run, m: nat, n: nat, a: ServerDecoder.TelemetrySample,
                           b: ServerDecoder.TelemetrySample)
    requires FlightRun.IsRun(r) && m <= n && ShownOf(enc, r.path(m), a) && ShownOf(enc, r.path(n), b)
    ensures ShownOrder(a.missionPhase) <= ShownOrder(b.missionPhase) <= ShownOrder(a.missionPhase) + (n - m)
  {
    OrderShown(enc, r.path(m), a);
    OrderShown(enc, r.path(n), b);
    FlightRun.MassFallsAndPhasesAdvance(r, m, n);
  }
}
