/** The TypeScript decoder, with its absolute offsets, and its agreement with the C++ one. */
module ServerDecoder {
  import opened Binary
  import opened Doubles
  import Crc
  import Wire

  datatype MissionPhase = Prelaunch | PoweredAscent | Coast | Descent | LandingBurn | Landed

  // Numbers read with getFloat32 and getFloat64 are kept as their bit patterns.
  datatype TelemetrySample = TelemetrySample(
    sequence: uint32,
    timestampUs: nat,
    missionPhase: MissionPhase,
    positionM: Wire.Doubles3,
    velocityMps: Wire.Doubles3,
    orientationWxyz: Wire.Floats4,
    thrustPercent: uint32,
    chamberPressureMpa: uint32,
    gimbalCommandDeg: Wire.Floats2,
    gridFinCommandDeg: Wire.Floats2,
    faultFlags: uint32,
    truthPositionM: Wire.Doubles3,
    truthVelocityMps: Wire.Doubles3)

  datatype DecodeError =
    WrongSize | WrongMagic | UnsupportedVersion | ChecksumMismatch | InvalidPhase | InvalidNumber
  datatype DecodeResult = Sample(sample: TelemetrySample) | Refused(error: DecodeError)

  const PHASES: seq<MissionPhase> := [Prelaunch, PoweredAscent, Coast, Descent, LandingBurn, Landed]

  // ---------- DataView reads ----------

  function GetUint8(packet: seq<uint8>, at: nat): uint8
    requires at < |packet|
  {
    packet[at]
  }

  function GetUint16(packet: seq<uint8>, at: nat): (value: uint16)
    requires at + 2 <= |packet|
  {
    Wire.PowersOf256();
    Wire.Unsigned(packet, at, 2)
  }

  function GetUint32(packet: seq<uint8>, at: nat): (value: uint32)
    requires at + 4 <= |packet|
  {
    Wire.PowersOf256();
    Wire.Unsigned(packet, at, 4)
  }

  function GetUint64(packet: seq<uint8>, at: nat): (value: uint64)
    requires at + 8 <= |packet|
  {
    Wire.PowersOf256();
    Wire.Unsigned(packet, at, 8)
  }

  // ---------- decodeTelemetry ----------

  predicate AllFinite64(numbers: seq<uint64>) {
    forall i :: 0 <= i < |numbers| ==> FiniteFloat64(numbers[i])
  }

  predicate AllFinite32(numbers: seq<uint32>) {
    forall i :: 0 <= i < |numbers| ==> FiniteFloat32(numbers[i])
  }

  function DecodeTelemetry(packet: seq<uint8>): DecodeResult {
    if |packet| != 163 then Refused(WrongSize)
    else if GetUint32(packet, 0) != 0x46445831 then Refused(WrongMagic)
    else if GetUint16(packet, 4) != 2 then Refused(UnsupportedVersion)
    else if GetUint32(packet, 159) != Crc.Checksum(packet[0..159]) then Refused(ChecksumMismatch)
    else if GetUint8(packet, 18) >= |PHASES| then Refused(InvalidPhase)
    else
      var sample := ReadSample(packet, PHASES[GetUint8(packet, 18)]);
      if EveryNumberFinite(sample) then Sample(sample) else Refused(InvalidNumber)
  }

  predicate EveryNumberFinite(sample: TelemetrySample) {
    && AllFinite64(sample.positionM) && AllFinite64(sample.velocityMps) && AllFinite32(sample.orientationWxyz)
    && AllFinite32(sample.gimbalCommandDeg) && AllFinite32(sample.gridFinCommandDeg)
    && AllFinite64(sample.truthPositionM) && AllFinite64(sample.truthVelocityMps)
    && FiniteFloat32(sample.thrustPercent) && FiniteFloat32(sample.chamberPressureMpa)
  }

  function ReadSample(packet: seq<uint8>, phase: MissionPhase): TelemetrySample
    requires |packet| == 163
  {
    TelemetrySample(
      GetUint32(packet, 6), NumberOf(GetUint64(packet, 10)), phase,
      Triple(GetUint64(packet, 19), GetUint64(packet, 27), GetUint64(packet, 35)),
      Triple(GetUint64(packet, 43), GetUint64(packet, 51), GetUint64(packet, 59)),
      Quadruple(GetUint32(packet, 67), GetUint32(packet, 71), GetUint32(packet, 75), GetUint32(packet, 79)),
      GetUint32(packet, 83), GetUint32(packet, 87),
      Pair(GetUint32(packet, 91), GetUint32(packet, 95)),
      Pair(GetUint32(packet, 99), GetUint32(packet, 103)),
      GetUint32(packet, 107),
      Triple(GetUint64(packet, 111), GetUint64(packet, 119), GetUint64(packet, 127)),
      Triple(GetUint64(packet, 135), GetUint64(packet, 143), GetUint64(packet, 151)))
  }

  function Triple(a: uint64, b: uint64, c: uint64): Wire.Doubles3 { [a, b, c] }

  function Quadruple(a: uint32, b: uint32, c: uint32, d: uint32): Wire.Floats4 { [a, b, c, d] }

  function Pair(a: uint32, b: uint32): Wire.Floats2 { [a, b] }

  // ---------- Agreement ----------

  // The C++ record as the server shows it.
  function ViewOf(t: Wire.Telemetry, phase: MissionPhase): TelemetrySample {
    TelemetrySample(t.sequence, NumberOf(t.timestampUs), phase, t.positionM, t.velocityMps, t.orientationWxyz,
                    t.thrustPercent, t.chamberPressureMpa, t.gimbalCommandDeg, t.gridFinCommandDeg, t.faultFlags,
                    t.truthPositionM, t.truthVelocityMps)
  }

  predicate FloatsFinite(t: Wire.Telemetry) {
    && AllFinite64(t.positionM) && AllFinite64(t.velocityMps) && AllFinite32(t.orientationWxyz)
    && FiniteFloat32(t.thrustPercent) && FiniteFloat32(t.chamberPressureMpa)
    && AllFinite32(t.gimbalCommandDeg) && AllFinite32(t.gridFinCommandDeg)
    && AllFinite64(t.truthPositionM) && AllFinite64(t.truthVelocityMps)
  }

  // What the field at position i of the packet is, read at its absolute offset.
  lemma FieldAt(packet: seq<uint8>, i: nat)
    requires |packet| == 163 && i < Wire.FIELD_COUNT
    ensures Wire.TotalSize(Wire.SIZES) == 159 && Wire.OffsetAt(i) + Wire.SizeAt(i) <= 159
    ensures Wire.Decode(Wire.SIZES, packet[..159])[i] == Wire.Unsigned(packet, Wire.OffsetAt(i), Wire.SizeAt(i))
  {
    var from, size := Wire.OffsetAt(i), Wire.SizeAt(i);
    Wire.DecodedAt(packet[..159], i);
    assert packet[..159][from..from + size] == packet[from..from + size];
    Wire.UnsignedAgrees(packet[..159], from, packet, from, size);
  }

  /** Every absolute offset of the TypeScript decoder is where the C++ code arrives sequentially. */
  lemma SameFields(packet: seq<uint8>, phase: MissionPhase)
    requires |packet| == 163
    ensures ReadSample(packet, phase) == ViewOf(Wire.FromBody(packet[..159]), phase)
    ensures Wire.FromBody(packet[..159]).missionPhase == GetUint8(packet, 18)
  {
    FieldAt(packet, 4);
    assert Wire.Unsigned(packet, 18, 1) == packet[18];
    Wire.BodySize();
    SamePosition(packet);
    SameGuidance(packet);
    SameTruth(packet);
  }

  lemma DoubleAt(packet: seq<uint8>, i: nat, at: nat)
    requires |packet| == 163 && i < Wire.FIELD_COUNT && Wire.SizeAt(i) == 8 && at == Wire.OffsetAt(i)
    ensures Wire.TotalSize(Wire.SIZES) == 159 && at + 8 <= 159
    ensures Wire.Decode(Wire.SIZES, packet[..159])[i] == GetUint64(packet, at)
  {
    FieldAt(packet, i);
  }

  lemma TripleAt(packet: seq<uint8>, i: nat)
    requires |packet| == 163 && i in {5, 8, 22, 25}
    ensures Wire.TotalSize(Wire.SIZES) == 159 && Wire.OffsetAt(i) + 24 <= 159
    ensures Wire.Doubles(Wire.Decode(Wire.SIZES, packet[..159]), i)
         == Triple(GetUint64(packet, Wire.OffsetAt(i)), GetUint64(packet, Wire.OffsetAt(i) + 8),
                   GetUint64(packet, Wire.OffsetAt(i) + 16))
  {
    var at := Wire.OffsetAt(i);
    DoubleAt(packet, i, at);
    DoubleAt(packet, i + 1, at + 8);
    DoubleAt(packet, i + 2, at + 16);
  }

  lemma SamePosition(packet: seq<uint8>)
    requires |packet| == 163
    ensures var t := Wire.FromBody(packet[..159]);
      (t.sequence, t.timestampUs, t.positionM, t.velocityMps) ==
      (GetUint32(packet, 6), GetUint64(packet, 10),
       Triple(GetUint64(packet, 19), GetUint64(packet, 27), GetUint64(packet, 35)),
       Triple(GetUint64(packet, 43), GetUint64(packet, 51), GetUint64(packet, 59)))
  {
    Wire.BodySize();
    FieldAt(packet, 2);
    FieldAt(packet, 3);
    TripleAt(packet, 5);
    TripleAt(packet, 8);
  }

  lemma SameGuidance(packet: seq<uint8>)
    requires |packet| == 163
    ensures var t := Wire.FromBody(packet[..159]);
      (t.orientationWxyz, t.thrustPercent, t.chamberPressureMpa, t.gimbalCommandDeg, t.gridFinCommandDeg,
       t.faultFlags) ==
      (Quadruple(GetUint32(packet, 67), GetUint32(packet, 71), GetUint32(packet, 75), GetUint32(packet, 79)),
       GetUint32(packet, 83), GetUint32(packet, 87),
       Pair(GetUint32(packet, 91), GetUint32(packet, 95)), Pair(GetUint32(packet, 99), GetUint32(packet, 103)),
       GetUint32(packet, 107))
  {
    Wire.BodySize();
    FieldAt(packet, 11); FieldAt(packet, 12); FieldAt(packet, 13); FieldAt(packet, 14);
    FieldAt(packet, 15); FieldAt(packet, 16);
    FieldAt(packet, 17); FieldAt(packet, 18); FieldAt(packet, 19); FieldAt(packet, 20); FieldAt(packet, 21);
  }

  lemma SameTruth(packet: seq<uint8>)
    requires |packet| == 163
    ensures var t := Wire.FromBody(packet[..159]);
      (t.truthPositionM, t.truthVelocityMps) ==
      (Triple(GetUint64(packet, 111), GetUint64(packet, 119), GetUint64(packet, 127)),
       Triple(GetUint64(packet, 135), GetUint64(packet, 143), GetUint64(packet, 151)))
  {
    Wire.BodySize();
    var v := Wire.Decode(Wire.SIZES, packet[..159]);
    var t := Wire.FromValues(v);
    assert t.truthPositionM == Wire.Doubles(v, 22);
    TripleAt(packet, 22);
    assert t.truthVelocityMps == Wire.Doubles(v, 25);
    TripleAt(packet, 25);
  }

  // The common prefix of both decoders: they name the same error, or both go on to the fields.
  lemma RejectedCase(packet: seq<uint8>)
    requires Wire.Deserialize(packet).Rejected?
    ensures DecodeTelemetry(packet) == Refused(SameError(Wire.Deserialize(packet).error))
  {
    if |packet| == 163 { assert packet[0..159] == packet[..159]; }
  }

  lemma AcceptedCase(packet: seq<uint8>)
    requires Wire.Deserialize(packet).Accepted?
    ensures var t := Wire.Deserialize(packet).telemetry;
      DecodeTelemetry(packet) ==
        if t.missionPhase > 5 then Refused(InvalidPhase)
        else if FloatsFinite(t) then Sample(ViewOf(t, PHASES[t.missionPhase]))
        else Refused(InvalidNumber)
  {
    var t := Wire.Deserialize(packet).telemetry;
    assert packet[0..159] == packet[..159];
    SameFields(packet, if GetUint8(packet, 18) < 6 then PHASES[GetUint8(packet, 18)] else Prelaunch);
    assert FloatsFinite(t) == EveryNumberFinite(ViewOf(t, Prelaunch));
  }

  /** The TypeScript decoder accepts exactly the packets the C++ decoder accepts whose phase is known
      and whose floats are finite, and then shows the same fields; on the other packets it names the
      C++ decoder's error, or the phase, or the number. */
  lemma DecodersAgree(packet: seq<uint8>)
    ensures DecodeTelemetry(packet).Sample? <==>
      (&& Wire.Deserialize(packet).Accepted?
       && Wire.Deserialize(packet).telemetry.missionPhase <= 5
       && FloatsFinite(Wire.Deserialize(packet).telemetry))
    ensures DecodeTelemetry(packet).Sample? ==>
      var t := Wire.Deserialize(packet).telemetry;
      DecodeTelemetry(packet).sample == ViewOf(t, PHASES[t.missionPhase])
    ensures Wire.Deserialize(packet).Rejected? ==>
      DecodeTelemetry(packet) == Refused(SameError(Wire.Deserialize(packet).error))
  {
    if Wire.Deserialize(packet).Accepted? { AcceptedCase(packet); } else { RejectedCase(packet); }
  }

  function SameError(error: Wire.DecodeError): DecodeError {
    match error
    case WrongSize => WrongSize
    case WrongMagic => WrongMagic
    case UnsupportedVersion => UnsupportedVersion
    case ChecksumMismatch => ChecksumMismatch
  }

  /** Up to 2^53 microseconds the sample carries the record's timestamp unchanged. */
  lemma TimestampUnchanged(packet: seq<uint8>)
    requires DecodeTelemetry(packet).Sample?
    ensures Wire.Deserialize(packet).Accepted?
    ensures var t := Wire.Deserialize(packet).telemetry;
      (t.timestampUs <= 0x20_0000_0000_0000 ==> DecodeTelemetry(packet).sample.timestampUs == t.timestampUs)
      && (DecodeTelemetry(packet).sample.timestampUs == t.timestampUs <==> t.timestampUs % Spacing(t.timestampUs) == 0)
  {
    DecodersAgree(packet);
    NumberIsExact(Wire.Deserialize(packet).telemetry.timestampUs);
  }

  /** Neither decoder accepts a packet with four adjacent bytes before the checksum rewritten. */
  lemma BothRejectAlteredPackets(bytes: seq<uint8>, altered: seq<uint8>, at: nat)
    requires Wire.Deserialize(bytes).Accepted?
    requires |altered| == 163 && altered != bytes && at + 4 <= 159
    requires forall i :: 0 <= i < 163 && !(at <= i < at + 4) ==> altered[i] == bytes[i]
    ensures Wire.Deserialize(altered).Rejected? && DecodeTelemetry(altered).Refused?
  {
    Wire.AlteredPacketIsRejected(bytes, altered, at);
    DecodersAgree(altered);
  }
}
