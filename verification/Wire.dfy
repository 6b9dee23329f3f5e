/** The 163-byte telemetry packet as the C++ protocol library writes and reads it. Floating-point
    numbers are their IEEE 754 bit patterns (section 3.4). */
module Wire {
  import opened Binary
  import Crc

  const MAGIC: uint32 := 0x46445831
  const VERSION: uint16 := 2
  const PACKET_SIZE := 163
  const CRC_OFFSET := 159

  type Doubles3 = s: seq<uint64> | |s| == 3 witness [0, 0, 0]
  type Floats4 = s: seq<uint32> | |s| == 4 witness [0, 0, 0, 0]
  type Floats2 = s: seq<uint32> | |s| == 2 witness [0, 0]

  datatype Telemetry = Telemetry(
    sequence: uint32,
    timestampUs: uint64,
    missionPhase: uint8,
    positionM: Doubles3,
    velocityMps: Doubles3,
    orientationWxyz: Floats4,
    thrustPercent: uint32,
    chamberPressureMpa: uint32,
    gimbalCommandDeg: Floats2,
    gridFinCommandDeg: Floats2,
    faultFlags: uint32,
    truthPositionM: Doubles3,
    truthVelocityMps: Doubles3)

  datatype DecodeError = WrongSize | WrongMagic | UnsupportedVersion | ChecksumMismatch
  datatype DecodeResult = Accepted(telemetry: Telemetry) | Rejected(error: DecodeError)

  // ---------- Big-endian unsigned integers ----------

  function Pow256(n: nat): (p: nat)
    ensures p > 0
  {
    if n == 0 then 1 else 256 * Pow256(n - 1)
  }

  function BigEndian(size: nat, value: nat): (bytes: seq<uint8>)
    ensures |bytes| == size
  {
    if size == 0 then [] else BigEndian(size - 1, value / 256) + [value % 256]
  }

  // The number in the n bytes from position at on.
  function Unsigned(bytes: seq<uint8>, at: nat, n: nat): (value: nat)
    requires at + n <= |bytes|
    ensures value < Pow256(n)
  {
    if n == 0 then 0 else Unsigned(bytes, at, n - 1) * 256 + bytes[at + n - 1]
  }

  lemma {:induction false} UnsignedAgrees(a: seq<uint8>, i: nat, b: seq<uint8>, j: nat, n: nat)
    requires i + n <= |a| && j + n <= |b| && a[i..i + n] == b[j..j + n]
    ensures Unsigned(a, i, n) == Unsigned(b, j, n)
  {
    if n > 0 {
      assert a[i..i + n][..n - 1] == a[i..i + n - 1] && b[j..j + n][..n - 1] == b[j..j + n - 1];
      assert a[i + n - 1] == a[i..i + n][n - 1] && b[j + n - 1] == b[j..j + n][n - 1];
      UnsignedAgrees(a, i, b, j, n - 1);
    }
  }

  lemma {:induction false} ReadWhatWasWritten(size: nat, value: nat)
    requires value < Pow256(size)
    ensures Unsigned(BigEndian(size, value), 0, size) == value
  {
    if size > 0 {
      var high := BigEndian(size - 1, value / 256);
      ReadWhatWasWritten(size - 1, value / 256);
      assert BigEndian(size, value)[0..size - 1] == high[0..size - 1];
      UnsignedAgrees(BigEndian(size, value), 0, high, 0, size - 1);
    }
  }

  lemma {:induction false} WriteWhatWasRead(bytes: seq<uint8>, at: nat, n: nat)
    requires at + n <= |bytes|
    ensures BigEndian(n, Unsigned(bytes, at, n)) == bytes[at..at + n]
  {
    if n > 0 {
      WriteWhatWasRead(bytes, at, n - 1);
      assert bytes[at..at + n] == bytes[at..at + n - 1] + [bytes[at + n - 1]];
    }
  }

  // value >> (8 * n)
  function ShiftedRight(value: nat, n: nat): nat {
    if n == 0 then value else ShiftedRight(value, n - 1) / 256
  }

  lemma {:induction false} ShiftedToZero(value: nat, size: nat)
    requires value < Pow256(size)
    ensures ShiftedRight(value, size) == 0
  {
    if size > 0 {
      ShiftedRightFirst(value, size);
      ShiftedToZero(value / 256, size - 1);
    }
  }

  lemma {:induction false} ShiftedRightFirst(value: nat, n: nat)
    requires n > 0
    ensures ShiftedRight(value, n) == ShiftedRight(value / 256, n - 1)
  {
    if n > 1 { ShiftedRightFirst(value, n - 1); }
  }

  method WriteUnsigned(output: array<uint8>, offset: nat, size: nat, value: nat) returns (next: nat)
    requires offset + size <= output.Length && value < Pow256(size)
    modifies output
    ensures next == offset + size
    ensures output[..next] == old(output[..offset]) + BigEndian(size, value)
  {
    next := offset;
    ShiftedToZero(value, size);
    for i := 0 to size
      invariant next == offset + i
      invariant output[..offset] == old(output[..offset])
      invariant output[offset..next] == BigEndian(i, ShiftedRight(value, size - i))
    {
      output[next] := ShiftedRight(value, size - i - 1) % 256;
      next := next + 1;
      assert output[offset..next] == output[offset..next - 1] + [output[next - 1]];
    }
    assert output[..next] == output[..offset] + output[offset..next];
  }

  method ReadUnsigned(input: seq<uint8>, offset: nat, size: nat) returns (value: nat, next: nat)
    requires offset + size <= |input|
    ensures next == offset + size && value == Unsigned(input, offset, size)
  {
    value, next := 0, offset;
    for i := 0 to size
      invariant next == offset + i
      invariant value == Unsigned(input, offset, i)
    {
      value := value * 256 + input[next];
      next := next + 1;
    }
  }

  // ---------- Field lists ----------

  ghost predicate Fits(sizes: seq<nat>, values: seq<nat>) {
    |sizes| == |values| && forall i :: 0 <= i < |values| ==> values[i] < Pow256(sizes[i])
  }

  function TotalSize(sizes: seq<nat>): nat {
    if sizes == [] then 0 else TotalSize(sizes[..|sizes| - 1]) + sizes[|sizes| - 1]
  }

  function Encode(sizes: seq<nat>, values: seq<nat>): (bytes: seq<uint8>)
    requires |sizes| == |values|
    ensures |bytes| == TotalSize(sizes)
  {
    if sizes == [] then []
    else
      var n := |sizes| - 1;
      Encode(sizes[..n], values[..n]) + BigEndian(sizes[n], values[n])
  }

  function Decode(sizes: seq<nat>, bytes: seq<uint8>): (values: seq<nat>)
    requires |bytes| == TotalSize(sizes)
    ensures Fits(sizes, values)
  {
    if sizes == [] then []
    else
      var n := |sizes| - 1;
      var cut := |bytes| - sizes[n];
      Decode(sizes[..n], bytes[..cut]) + [Unsigned(bytes, cut, sizes[n])]
  }

  lemma EncodeLast(sizes: seq<nat>, values: seq<nat>)
    requires |sizes| == |values| > 0
    ensures var n := |sizes| - 1;
      Encode(sizes, values) == Encode(sizes[..n], values[..n]) + BigEndian(sizes[n], values[n])
  {}

  lemma DecodeLast(sizes: seq<nat>, bytes: seq<uint8>)
    requires sizes != [] && |bytes| == TotalSize(sizes)
    ensures var n := |sizes| - 1; var cut := |bytes| - sizes[n];
      && cut == TotalSize(sizes[..n])
      && Decode(sizes, bytes)[..n] == Decode(sizes[..n], bytes[..cut])
      && Decode(sizes, bytes)[n] == Unsigned(bytes, cut, sizes[n])
  {}

  lemma Concatenated(first: seq<uint8>, last: seq<uint8>)
    ensures (first + last)[..|first|] == first
    ensures (first + last)[|first|..|first| + |last|] == last == last[0..|last|]
  {}

  // The encoding of the last value can be read back where the others end.
  lemma LastEncoded(sizes: seq<nat>, values: seq<nat>)
    requires sizes != [] && Fits(sizes, values)
    ensures var n := |sizes| - 1; var bytes := Encode(sizes, values); var cut := |bytes| - sizes[n];
      bytes[..cut] == Encode(sizes[..n], values[..n]) && Unsigned(bytes, cut, sizes[n]) == values[n]
  {
    var n := |sizes| - 1;
    EncodeLast(sizes, values);
    LastRead(Encode(sizes[..n], values[..n]), sizes[n], values[n]);
  }

  lemma LastRead(first: seq<uint8>, size: nat, value: nat)
    requires value < Pow256(size)
    ensures var bytes := first + BigEndian(size, value);
      bytes[..|first|] == first && Unsigned(bytes, |first|, size) == value
  {
    var last := BigEndian(size, value);
    Concatenated(first, last);
    UnsignedAgrees(first + last, |first|, last, 0, size);
    ReadWhatWasWritten(size, value);
  }

  lemma SameLists(a: seq<nat>, b: seq<nat>)
    requires |a| == |b| > 0 && a[..|a| - 1] == b[..|b| - 1] && a[|a| - 1] == b[|b| - 1]
    ensures a == b
  {
    assert a == a[..|a| - 1] + [a[|a| - 1]];
    assert b == b[..|b| - 1] + [b[|b| - 1]];
  }

  lemma {:induction false} DecodeEncode(sizes: seq<nat>, values: seq<nat>)
    requires Fits(sizes, values)
    ensures Decode(sizes, Encode(sizes, values)) == values
  {
    if sizes != [] {
      var n := |sizes| - 1;
      DecodeEncode(sizes[..n], values[..n]);
      LastEncoded(sizes, values);
      DecodeLast(sizes, Encode(sizes, values));
      SameLists(Decode(sizes, Encode(sizes, values)), values);
    }
  }

  lemma CutInTwo(bytes: seq<uint8>, cut: nat, size: nat)
    requires cut + size == |bytes|
    ensures bytes == bytes[..cut] + bytes[cut..cut + size]
  {}

  lemma EncodedAgain(sizes: seq<nat>, values: seq<nat>, bytes: seq<uint8>, cut: nat)
    requires |sizes| == |values| > 0 && cut + sizes[|sizes| - 1] == |bytes|
    requires Encode(sizes[..|sizes| - 1], values[..|sizes| - 1]) == bytes[..cut]
    requires values[|sizes| - 1] == Unsigned(bytes, cut, sizes[|sizes| - 1])
    ensures Encode(sizes, values) == bytes
  {
    EncodeLast(sizes, values);
    WriteWhatWasRead(bytes, cut, sizes[|sizes| - 1]);
    CutInTwo(bytes, cut, sizes[|sizes| - 1]);
  }

  lemma {:induction false} EncodeDecode(sizes: seq<nat>, bytes: seq<uint8>)
    requires |bytes| == TotalSize(sizes)
    ensures Encode(sizes, Decode(sizes, bytes)) == bytes
  {
    if sizes != [] {
      DecodeLast(sizes, bytes);
      var cut := |bytes| - sizes[|sizes| - 1];
      EncodeDecode(sizes[..|sizes| - 1], bytes[..cut]);
      EncodedAgain(sizes, Decode(sizes, bytes), bytes, cut);
    }
  }

  // A decoded value is the big-endian number that starts after the sizes before it.
  lemma {:induction false} DecodedAfter(sizes: seq<nat>, bytes: seq<uint8>, i: nat)
    requires |bytes| == TotalSize(sizes) && i < |sizes|
    ensures TotalSize(sizes[..i]) + sizes[i] <= |bytes|
    ensures Decode(sizes, bytes)[i] == Unsigned(bytes, TotalSize(sizes[..i]), sizes[i])
  {
    var n := |sizes| - 1;
    DecodeLast(sizes, bytes);
    if i < n {
      var shorter, inner := sizes[..n], bytes[..|bytes| - sizes[n]];
      DecodedAfter(shorter, inner, i);
      assert shorter[..i] == sizes[..i];
      assert Decode(sizes, bytes)[i] == Decode(sizes, bytes)[..n][i];
      SameInside(bytes, |inner|, TotalSize(sizes[..i]), sizes[i]);
    }
  }

  lemma SameInside(bytes: seq<uint8>, cut: nat, from: nat, size: nat)
    requires from + size <= cut <= |bytes|
    ensures Unsigned(bytes[..cut], from, size) == Unsigned(bytes, from, size)
  {
    assert bytes[..cut][from..from + size] == bytes[from..from + size];
    UnsignedAgrees(bytes[..cut], from, bytes, from, size);
  }

  // ---------- The layout ----------

  const FIELD_COUNT := 28

  function SizeAt(i: nat): nat {
    if i == 1 then 2 else if i == 3 then 8 else if i == 4 then 1 else if i < 5 then 4
    else if i < 11 then 8 else if i < 22 then 4 else 8
  }

  function OffsetAt(i: nat): nat {
    if i == 0 then 0 else if i == 1 then 4 else if i == 2 then 6 else if i == 3 then 10 else if i == 4 then 18
    else if i < 11 then 19 + 8 * (i - 5)
    else if i < 22 then 67 + 4 * (i - 11)
    else 111 + 8 * (i - 22)
  }

  // The sizes of the first n fields.
  function FirstSizes(n: nat): (sizes: seq<nat>)
    ensures |sizes| == n
  {
    seq(n, i requires 0 <= i => SizeAt(i))
  }

  const SIZES: seq<nat> := FirstSizes(FIELD_COUNT)

  /** The tabulated offsets are the running totals of the field sizes. */
  lemma {:induction false} OffsetsAreTotals(n: nat)
    ensures TotalSize(FirstSizes(n)) == OffsetAt(n)
    ensures n > 0 ==> OffsetAt(n) == OffsetAt(n - 1) + SizeAt(n - 1)
    ensures n <= FIELD_COUNT ==> OffsetAt(n) <= CRC_OFFSET
  {
    if n > 0 {
      OffsetsAreTotals(n - 1);
      assert FirstSizes(n)[..n - 1] == FirstSizes(n - 1);
    }
  }

  lemma BodySize()
    ensures TotalSize(SIZES) == CRC_OFFSET
  {
    OffsetsAreTotals(FIELD_COUNT);
  }

  /** Field i of the decoded body is the big-endian number at its absolute offset. */
  lemma DecodedAt(body: seq<uint8>, i: nat)
    requires |body| == CRC_OFFSET && i < FIELD_COUNT
    ensures TotalSize(SIZES) == CRC_OFFSET && OffsetAt(i) + SizeAt(i) <= CRC_OFFSET
    ensures Decode(SIZES, body)[i] == Unsigned(body, OffsetAt(i), SizeAt(i))
  {
    BodySize();
    DecodedAfter(SIZES, body, i);
    OffsetsAreTotals(i);
    assert SIZES[..i] == FirstSizes(i);
  }

  // ---------- The packet ----------

  function ValueAt(t: Telemetry, i: nat): (value: nat)
    requires i < FIELD_COUNT
  {
    if i == 0 then MAGIC else if i == 1 then VERSION else if i == 2 then t.sequence
    else if i == 3 then t.timestampUs else if i == 4 then t.missionPhase
    else if i < 8 then t.positionM[i - 5]
    else if i < 11 then t.velocityMps[i - 8]
    else if i < 15 then t.orientationWxyz[i - 11]
    else if i == 15 then t.thrustPercent else if i == 16 then t.chamberPressureMpa
    else if i < 19 then t.gimbalCommandDeg[i - 17]
    else if i < 21 then t.gridFinCommandDeg[i - 19]
    else if i == 21 then t.faultFlags
    else if i < 25 then t.truthPositionM[i - 22]
    else t.truthVelocityMps[i - 25]
  }

  function Values(t: Telemetry): (v: seq<nat>)
    ensures Fits(SIZES, v)
  {
    PowersOf256();
    seq(FIELD_COUNT, i requires 0 <= i < FIELD_COUNT => ValueAt(t, i))
  }

  function FromValues(v: seq<nat>): Telemetry
    requires Fits(SIZES, v)
  {
    Telemetry(Word32(v, 2), Word64(v, 3), Word8(v, 4), Doubles(v, 5), Doubles(v, 8),
              [Word32(v, 11), Word32(v, 12), Word32(v, 13), Word32(v, 14)], Word32(v, 15), Word32(v, 16),
              [Word32(v, 17), Word32(v, 18)], [Word32(v, 19), Word32(v, 20)], Word32(v, 21),
              Doubles(v, 22), Doubles(v, 25))
  }

  function Word8(v: seq<nat>, i: nat): (word: uint8)
    requires i < |v| && Fits(SIZES, v) && SizeAt(i) == 1
    ensures word == v[i]
  {
    PowersOf256(); v[i]
  }

  function Word32(v: seq<nat>, i: nat): (word: uint32)
    requires i < |v| && Fits(SIZES, v) && SizeAt(i) == 4
    ensures word == v[i]
  {
    PowersOf256(); v[i]
  }

  function Word64(v: seq<nat>, i: nat): (word: uint64)
    requires i < |v| && Fits(SIZES, v) && SizeAt(i) == 8
    ensures word == v[i]
  {
    PowersOf256(); v[i]
  }

  function Doubles(v: seq<nat>, i: nat): Doubles3
    requires i + 2 < |v| && Fits(SIZES, v) && SizeAt(i) == SizeAt(i + 1) == SizeAt(i + 2) == 8
  {
    [Word64(v, i), Word64(v, i + 1), Word64(v, i + 2)]
  }

  lemma PowersOf256()
    ensures Pow256(1) == 0x100 && Pow256(2) == 0x1_0000 && Pow256(4) == 0x1_0000_0000
    ensures Pow256(8) == 0x1_0000_0000_0000_0000
  {}

  function Body(t: Telemetry): (bytes: seq<uint8>)
    ensures |bytes| == CRC_OFFSET
  {
    BodySize();
    Encode(SIZES, Values(t))
  }

  function Serialize(t: Telemetry): (bytes: seq<uint8>)
    ensures |bytes| == PACKET_SIZE
  {
    Body(t) + BigEndian(4, Crc.Checksum(Body(t)))
  }

  function FromBody(bytes: seq<uint8>): Telemetry
    requires |bytes| == CRC_OFFSET
  {
    BodySize();
    FromValues(Decode(SIZES, bytes))
  }

  function Deserialize(bytes: seq<uint8>): DecodeResult {
    if |bytes| != PACKET_SIZE then Rejected(WrongSize)
    else if Unsigned(bytes, 0, 4) != MAGIC then Rejected(WrongMagic)
    else if Unsigned(bytes, 4, 2) != VERSION then Rejected(UnsupportedVersion)
    else if Unsigned(bytes, CRC_OFFSET, 4) != Crc.Checksum(bytes[..CRC_OFFSET]) then Rejected(ChecksumMismatch)
    else Accepted(FromBody(bytes[..CRC_OFFSET]))
  }

  // ---------- Inverse in both directions ----------

  lemma FromValuesOfValues(t: Telemetry)
    ensures FromValues(Values(t)) == t
  {}

  lemma ValuesOfFromValues(v: seq<nat>)
    requires Fits(SIZES, v) && v[0] == MAGIC && v[1] == VERSION
    ensures Values(FromValues(v)) == v
  {
    var t := FromValues(v);
    forall i | 0 <= i < FIELD_COUNT ensures ValueAt(t, i) == v[i] { ValueAtFromValues(v, i); }
    ValuesAre(t, v);
  }

  lemma ValuesAre(t: Telemetry, v: seq<nat>)
    requires |v| == FIELD_COUNT && forall i :: 0 <= i < FIELD_COUNT ==> ValueAt(t, i) == v[i]
    ensures Values(t) == v
  {}

  lemma ValueAtFromValues(v: seq<nat>, i: nat)
    requires Fits(SIZES, v) && v[0] == MAGIC && v[1] == VERSION && i < FIELD_COUNT
    ensures ValueAt(FromValues(v), i) == v[i]
  {}

  lemma BodyHead(body: seq<uint8>)
    requires |body| == CRC_OFFSET
    ensures TotalSize(SIZES) == CRC_OFFSET
    ensures Decode(SIZES, body)[0] == Unsigned(body, 0, 4)
    ensures Decode(SIZES, body)[1] == Unsigned(body, 4, 2)
  {
    DecodedAt(body, 0);
    DecodedAt(body, 1);
  }

  lemma DecodeBody(t: Telemetry)
    ensures FromBody(Body(t)) == t
    ensures Unsigned(Body(t), 0, 4) == MAGIC && Unsigned(Body(t), 4, 2) == VERSION
  {
    BodySize();
    DecodeEncode(SIZES, Values(t));
    FromValuesOfValues(t);
    BodyHead(Body(t));
  }

  lemma SameHead(bytes: seq<uint8>)
    requires |bytes| == PACKET_SIZE
    ensures Unsigned(bytes, 0, 4) == Unsigned(bytes[..CRC_OFFSET], 0, 4)
    ensures Unsigned(bytes, 4, 2) == Unsigned(bytes[..CRC_OFFSET], 4, 2)
  {
    var body := bytes[..CRC_OFFSET];
    assert bytes[0..4] == body[0..4] && bytes[4..6] == body[4..6];
    UnsignedAgrees(bytes, 0, body, 0, 4);
    UnsignedAgrees(bytes, 4, body, 4, 2);
  }

  /** Every telemetry record survives the wire. */
  lemma DeserializeSerialize(t: Telemetry)
    ensures Deserialize(Serialize(t)) == Accepted(t)
  {
    DecodeBody(t);
    var bytes, body := Serialize(t), Body(t);
    var stored := BigEndian(4, Crc.Checksum(body));
    assert bytes[..CRC_OFFSET] == body && bytes[CRC_OFFSET..CRC_OFFSET + 4] == stored == stored[0..4];
    SameHead(bytes);
    UnsignedAgrees(bytes, CRC_OFFSET, stored, 0, 4);
    PowersOf256();
    ReadWhatWasWritten(4, Crc.Checksum(body));
  }

  lemma EncodeBody(body: seq<uint8>)
    requires |body| == CRC_OFFSET
    requires Unsigned(body, 0, 4) == MAGIC && Unsigned(body, 4, 2) == VERSION
    ensures Body(FromBody(body)) == body
  {
    BodyHead(body);
    ValuesOfFromValues(Decode(SIZES, body));
    EncodeDecode(SIZES, body);
  }

  /** Every accepted packet is the one the accepted record serializes to. */
  lemma SerializeDeserialize(bytes: seq<uint8>)
    requires Deserialize(bytes).Accepted?
    ensures Serialize(Deserialize(bytes).telemetry) == bytes
  {
    var body := bytes[..CRC_OFFSET];
    SameHead(bytes);
    EncodeBody(body);
    assert Deserialize(bytes).telemetry == FromBody(body);
    WriteWhatWasRead(bytes, CRC_OFFSET, 4);
    CutInTwo(bytes, CRC_OFFSET, 4);
  }

  // ---------- The C++ functions ----------

  // The first n fields of t are written, up to offset.
  ghost predicate Written(bytes: seq<uint8>, offset: nat, t: Telemetry, n: nat) {
    && n <= FIELD_COUNT && offset == OffsetAt(n) <= |bytes|
    && bytes[..offset] == Encode(FirstSizes(n), Values(t)[..n])
  }

  lemma OneMoreWritten(before: seq<uint8>, bytes: seq<uint8>, offset: nat, t: Telemetry, n: nat)
    requires n < FIELD_COUNT && Written(before, offset, t, n)
    requires offset + SizeAt(n) <= |bytes|
    requires bytes[..offset + SizeAt(n)] == before[..offset] + BigEndian(SizeAt(n), ValueAt(t, n))
    ensures Written(bytes, offset + SizeAt(n), t, n + 1)
  {
    OffsetsAreTotals(n + 1);
    var sizes, values := FirstSizes(n + 1), Values(t)[..n + 1];
    assert sizes[..n] == FirstSizes(n) && values[..n] == Values(t)[..n];
    assert Encode(sizes, values) == Encode(sizes[..n], values[..n]) + BigEndian(sizes[n], values[n]);
  }

  // One write_unsigned call: it writes field n.
  method WriteField(output: array<uint8>, offset: nat, size: nat, value: nat, ghost t: Telemetry, ghost n: nat)
    returns (next: nat)
    requires output.Length == PACKET_SIZE && n < FIELD_COUNT && Written(output[..], offset, t, n)
    requires size == SizeAt(n) && value == ValueAt(t, n)
    modifies output
    ensures Written(output[..], next, t, n + 1)
  {
    OffsetsAreTotals(n + 1);
    assert Values(t)[n] == value;
    ghost var before := output[..];
    next := WriteUnsigned(output, offset, size, value);
    assert output[..next] == output[..][..next] && before[..offset] == old(output[..offset]);
    OneMoreWritten(before, output[..], offset, t, n);
  }

  method WriteFields(output: array<uint8>, offset: nat, size: nat, values: seq<nat>, ghost t: Telemetry, ghost n: nat)
    returns (next: nat)
    requires output.Length == PACKET_SIZE && n + |values| <= FIELD_COUNT && Written(output[..], offset, t, n)
    requires forall i {:trigger values[i]} :: 0 <= i < |values| ==>
      size == SizeAt(n + i) && values[i] == ValueAt(t, n + i)
    modifies output
    ensures Written(output[..], next, t, n + |values|)
  {
    next := offset;
    for i := 0 to |values|
      invariant Written(output[..], next, t, n + i)
    {
      next := WriteField(output, next, size, values[i], t, n + i);
    }
  }

  method SerializeInto(t: Telemetry) returns (output: array<uint8>)
    ensures fresh(output) && output[..] == Serialize(t)
  {
    output := new uint8[PACKET_SIZE];
    var offset := WriteHeader(output, t);
    offset := WriteMotion(output, offset, t);
    offset := WriteSystems(output, offset, t);
    offset := WriteFields(output, offset, 8, t.truthPositionM, t, 22);
    offset := WriteFields(output, offset, 8, t.truthVelocityMps, t, 25);
    offset := WriteChecksum(output, offset, t);
  }

  method WriteHeader(output: array<uint8>, t: Telemetry) returns (offset: nat)
    requires output.Length == PACKET_SIZE
    modifies output
    ensures Written(output[..], offset, t, 5)
  {
    offset := 0;
    offset := WriteField(output, offset, 4, MAGIC, t, 0);
    offset := WriteField(output, offset, 2, VERSION, t, 1);
    offset := WriteField(output, offset, 4, t.sequence, t, 2);
    offset := WriteField(output, offset, 8, t.timestampUs, t, 3);
    offset := WriteField(output, offset, 1, t.missionPhase, t, 4);
  }

  method WriteMotion(output: array<uint8>, start: nat, t: Telemetry) returns (offset: nat)
    requires output.Length == PACKET_SIZE && Written(output[..], start, t, 5)
    modifies output
    ensures Written(output[..], offset, t, 15)
  {
    offset := WriteFields(output, start, 8, t.positionM, t, 5);
    offset := WriteFields(output, offset, 8, t.velocityMps, t, 8);
    offset := WriteFields(output, offset, 4, t.orientationWxyz, t, 11);
  }

  method WriteSystems(output: array<uint8>, start: nat, t: Telemetry) returns (offset: nat)
    requires output.Length == PACKET_SIZE && Written(output[..], start, t, 15)
    modifies output
    ensures Written(output[..], offset, t, 22)
  {
    offset := WriteField(output, start, 4, t.thrustPercent, t, 15);
    offset := WriteField(output, offset, 4, t.chamberPressureMpa, t, 16);
    offset := WriteFields(output, offset, 4, t.gimbalCommandDeg, t, 17);
    offset := WriteFields(output, offset, 4, t.gridFinCommandDeg, t, 19);
    offset := WriteField(output, offset, 4, t.faultFlags, t, 21);
  }

  method WriteChecksum(output: array<uint8>, offset: nat, ghost t: Telemetry) returns (next: nat)
    requires output.Length == PACKET_SIZE && Written(output[..], offset, t, FIELD_COUNT)
    modifies output
    ensures output[..] == Serialize(t)
  {
    assert Values(t)[..FIELD_COUNT] == Values(t);
    assert output[..CRC_OFFSET] == output[..][..CRC_OFFSET] == Body(t);
    PowersOf256();
    var checksum := Crc.Bitwise(output[..CRC_OFFSET]);
    next := WriteUnsigned(output, offset, 4, checksum);
    assert output[..] == output[..next];
  }

  // One read_unsigned call: it reads field n.
  method ReadField(bytes: seq<uint8>, offset: nat, size: nat, ghost n: nat) returns (value: nat, next: nat)
    requires |bytes| == PACKET_SIZE && n < FIELD_COUNT && offset == OffsetAt(n) && size == SizeAt(n)
    ensures next == OffsetAt(n + 1) && TotalSize(SIZES) == CRC_OFFSET
    ensures value == Decode(SIZES, bytes[..CRC_OFFSET])[n] < Pow256(size)
  {
    OffsetsAreTotals(n + 1);
    DecodedAt(bytes[..CRC_OFFSET], n);
    value, next := ReadUnsigned(bytes, offset, size);
    assert next <= CRC_OFFSET;
    assert bytes[offset..offset + size] == bytes[..CRC_OFFSET][offset..offset + size];
    UnsignedAgrees(bytes, offset, bytes[..CRC_OFFSET], offset, size);
  }

  method ReadFields(bytes: seq<uint8>, offset: nat, size: nat, count: nat, ghost n: nat)
    returns (values: seq<nat>, next: nat)
    requires |bytes| == PACKET_SIZE && n + count <= FIELD_COUNT && offset == OffsetAt(n)
    requires forall i :: n <= i < n + count ==> SizeAt(i) == size
    ensures next == OffsetAt(n + count) && TotalSize(SIZES) == CRC_OFFSET
    ensures values == Decode(SIZES, bytes[..CRC_OFFSET])[n..n + count]
  {
    BodySize();
    values, next := [], offset;
    for i := 0 to count
      invariant next == OffsetAt(n + i)
      invariant values == Decode(SIZES, bytes[..CRC_OFFSET])[n..n + i]
    {
      var value;
      value, next := ReadField(bytes, next, size, n + i);
      values := values + [value];
    }
  }

  method DeserializeFrom(bytes: seq<uint8>) returns (result: DecodeResult)
    ensures result == Deserialize(bytes)
  {
    if |bytes| != PACKET_SIZE { return Rejected(WrongSize); }
    var magic, version, offset;
    magic, offset := ReadUnsigned(bytes, 0, 4);
    if magic != MAGIC { return Rejected(WrongMagic); }
    version, offset := ReadUnsigned(bytes, offset, 2);
    if version != VERSION { return Rejected(UnsupportedVersion); }
    var intact := ChecksumMatches(bytes);
    if !intact { return Rejected(ChecksumMismatch); }
    var telemetry := ReadBody(bytes, offset);
    result := Accepted(telemetry);
  }

  method ChecksumMatches(bytes: seq<uint8>) returns (intact: bool)
    requires |bytes| == PACKET_SIZE
    ensures intact <==> Unsigned(bytes, CRC_OFFSET, 4) == Crc.Checksum(bytes[..CRC_OFFSET])
  {
    var expected := Crc.Bitwise(bytes[..CRC_OFFSET]);
    var stored, end := ReadUnsigned(bytes, CRC_OFFSET, 4);
    intact := stored == expected;
  }

  method ReadBody(bytes: seq<uint8>, start: nat) returns (telemetry: Telemetry)
    requires |bytes| == PACKET_SIZE && start == OffsetAt(2)
    ensures telemetry == FromBody(bytes[..CRC_OFFSET])
  {
    PowersOf256();
    var offset, sequence, timestamp, phase, thrust, pressure, flags := start, 0, 0, 0, 0, 0, 0;
    var position, velocity, orientation, gimbal, fins, truthPosition, truthVelocity;
    sequence, offset := ReadField(bytes, offset, 4, 2);
    timestamp, offset := ReadField(bytes, offset, 8, 3);
    phase, offset := ReadField(bytes, offset, 1, 4);
    position, offset := ReadFields(bytes, offset, 8, 3, 5);
    velocity, offset := ReadFields(bytes, offset, 8, 3, 8);
    orientation, offset := ReadFields(bytes, offset, 4, 4, 11);
    thrust, offset := ReadField(bytes, offset, 4, 15);
    pressure, offset := ReadField(bytes, offset, 4, 16);
    gimbal, offset := ReadFields(bytes, offset, 4, 2, 17);
    fins, offset := ReadFields(bytes, offset, 4, 2, 19);
    flags, offset := ReadField(bytes, offset, 4, 21);
    truthPosition, offset := ReadFields(bytes, offset, 8, 3, 22);
    truthVelocity, offset := ReadFields(bytes, offset, 8, 3, 25);
    telemetry := Telemetry(sequence, timestamp, phase, position, velocity, orientation, thrust, pressure,
                           gimbal, fins, flags, truthPosition, truthVelocity);
    FromParts(Decode(SIZES, bytes[..CRC_OFFSET]), telemetry);
  }

  lemma FromParts(v: seq<nat>, t: Telemetry)
    requires Fits(SIZES, v)
    requires v[2] == t.sequence && v[3] == t.timestampUs && v[4] == t.missionPhase
    requires v[5..8] == t.positionM && v[8..11] == t.velocityMps && v[11..15] == t.orientationWxyz
    requires v[15] == t.thrustPercent && v[16] == t.chamberPressureMpa
    requires v[17..19] == t.gimbalCommandDeg && v[19..21] == t.gridFinCommandDeg && v[21] == t.faultFlags
    requires v[22..25] == t.truthPositionM && v[25..28] == t.truthVelocityMps
    ensures FromValues(v) == t
  {
    var u := FromValues(v);
    assert u.positionM == v[5..8] && u.velocityMps == v[8..11] && u.orientationWxyz == v[11..15];
    assert u.gimbalCommandDeg == v[17..19] && u.gridFinCommandDeg == v[19..21];
    assert u.truthPositionM == v[22..25] && u.truthVelocityMps == v[25..28];
  }

  // ---------- Corruption ----------

  lemma SameEverywhere(bytes: seq<uint8>, altered: seq<uint8>, at: nat)
    requires |altered| == |bytes| && at + 4 <= |bytes| && altered[at..at + 4] == bytes[at..at + 4]
    requires forall i :: 0 <= i < |bytes| && !(at <= i < at + 4) ==> altered[i] == bytes[i]
    ensures altered == bytes
  {}

  lemma AlteredBodyChangesChecksum(bytes: seq<uint8>, altered: seq<uint8>, at: nat)
    requires |altered| == |bytes| == PACKET_SIZE && altered != bytes && at + 4 <= CRC_OFFSET
    requires forall i :: 0 <= i < PACKET_SIZE && !(at <= i < at + 4) ==> altered[i] == bytes[i]
    ensures Crc.Checksum(altered[..CRC_OFFSET]) != Crc.Checksum(bytes[..CRC_OFFSET])
  {
    var prefix, suffix := bytes[..at], bytes[at + 4..CRC_OFFSET];
    var old4, new4 := bytes[at..at + 4], altered[at..at + 4];
    assert bytes[..CRC_OFFSET] == prefix + old4 + suffix;
    assert altered[..CRC_OFFSET] == prefix + new4 + suffix;
    if old4 == new4 { SameEverywhere(bytes, altered, at); }
    Crc.FourBytesChangeChecksum(prefix, old4, new4, suffix);
  }

  /** Rewriting at most four adjacent bytes of the first 159 of an accepted packet gets it rejected. */
  lemma AlteredPacketIsRejected(bytes: seq<uint8>, altered: seq<uint8>, at: nat)
    requires Deserialize(bytes).Accepted?
    requires |altered| == PACKET_SIZE && altered != bytes && at + 4 <= CRC_OFFSET
    requires forall i :: 0 <= i < PACKET_SIZE && !(at <= i < at + 4) ==> altered[i] == bytes[i]
    ensures Deserialize(altered).Rejected?
  {
    AlteredBodyChangesChecksum(bytes, altered, at);
    assert bytes[CRC_OFFSET..CRC_OFFSET + 4] == altered[CRC_OFFSET..CRC_OFFSET + 4];
    UnsignedAgrees(bytes, CRC_OFFSET, altered, CRC_OFFSET, 4);
  }
}
