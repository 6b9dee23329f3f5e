/** The IEEE 802.3 CRC-32 (clause 3.2.9): the bit-at-a-time loop of the C++ protocol library, the
    table-driven loop of the TypeScript server, and what the code detects. */
module Crc {
  import opened Binary

  const POLYNOMIAL: uint32 := 0xEDB88320
  const ALL_ONES: uint32 := 0xFFFFFFFF

  // One right shift of the register, with feedback when a one falls out.
  function Shift(x: uint32): uint32 {
    WordXor(x / 2, Feedback(x))
  }

  function Feedback(x: uint32): uint32 {
    if x % 2 == 1 then POLYNOMIAL else 0
  }

  function WordXor(a: uint32, b: uint32): (c: uint32)
    ensures c == Xor(a, b)
  {
    Pow2At32();
    XorBound(a, b, 32);
    Xor(a, b)
  }

  function Shifts(x: uint32, n: nat): uint32
    decreases n
  {
    if n == 0 then x else Shifts(Shift(x), n - 1)
  }

  function Absorb(x: uint32, b: uint8): uint32 {
    Shifts(WordXor(x, b), 8)
  }

  // The register after a byte sequence has gone through it.
  function Register(x: uint32, bytes: seq<uint8>): uint32
    decreases |bytes|
  {
    if bytes == [] then x else Register(Absorb(x, bytes[0]), bytes[1..])
  }

  function Checksum(bytes: seq<uint8>): uint32 {
    WordXor(Register(ALL_ONES, bytes), ALL_ONES)
  }

  // ---------- The two implementations ----------

  /** The C++ loop. Its feedback mask 0 - (crc & 1) is all ones or all zeros. */
  method Bitwise(bytes: seq<uint8>) returns (checksum: uint32)
    ensures checksum == Checksum(bytes)
  {
    var crc := ALL_ONES;
    for i := 0 to |bytes|
      invariant Register(crc, bytes[i..]) == Register(ALL_ONES, bytes)
    {
      crc := EightBits(WordXor(crc, bytes[i]));
      assert bytes[i..][1..] == bytes[i + 1..];
    }
    checksum := WordXor(crc, ALL_ONES);
  }

  method EightBits(start: uint32) returns (crc: uint32)
    ensures crc == Shifts(start, 8)
  {
    crc := start;
    for bit := 0 to 8
      invariant Shifts(crc, 8 - bit) == Shifts(start, 8)
    {
      var mask: uint32 := if crc % 2 == 0 then 0 else 0x1_0000_0000 - 1;
      crc := WordXor(crc / 2, if mask == 0xFFFFFFFF then POLYNOMIAL else 0);
    }
  }

  ghost predicate IsTable(table: seq<uint32>) {
    |table| == 256 && forall v: uint8 :: table[v] == Shifts(v, 8)
  }

  /** The TypeScript table: entry v holds eight shifts of v. */
  method BuildTable() returns (table: array<uint32>)
    ensures fresh(table) && IsTable(table[..])
  {
    table := new uint32[256];
    for value := 0 to 256
      invariant forall v: uint8 :: v < value ==> table[v] == Shifts(v, 8)
    {
      var crc := TableEntry(value);
      table[value] := crc;
    }
  }

  method TableEntry(value: uint8) returns (crc: uint32)
    ensures crc == Shifts(value, 8)
  {
    crc := value;
    for bit := 0 to 8
      invariant Shifts(crc, 8 - bit) == Shifts(value, 8)
    {
      crc := WordXor(crc / 2, if crc % 2 == 1 then POLYNOMIAL else 0);
    }
  }

  /** The TypeScript loop over its table equals the C++ loop on every byte sequence. */
  method TableDriven(table: array<uint32>, bytes: seq<uint8>) returns (checksum: uint32)
    requires IsTable(table[..])
    ensures checksum == Checksum(bytes)
  {
    var crc := ALL_ONES;
    for i := 0 to |bytes|
      invariant Register(crc, bytes[i..]) == Register(ALL_ONES, bytes)
    {
      TableStep(crc, bytes[i]);
      crc := WordXor(crc / 256, table[WordXor(crc, bytes[i]) % 256]);
      assert bytes[i..][1..] == bytes[i + 1..];
    }
    checksum := WordXor(crc, ALL_ONES);
  }

  // The part of x above its n low bits, and those low bits.
  function High(x: nat, n: nat): nat {
    if n == 0 then x else High(x / 2, n - 1)
  }

  function Low(x: nat, n: nat): (low: nat)
    ensures low <= x
  {
    if n == 0 then 0 else x % 2 + 2 * Low(x / 2, n - 1)
  }

  lemma Quarter(x: nat)
    ensures x / 2 / 2 == x / 4 && x % 4 == x % 2 + 2 * (x / 2 % 2)
  {}

  lemma TwoBits(x: nat, n: nat)
    ensures High(x, n + 2) == High(x / 4, n) && Low(x, n + 2) == x % 4 + 4 * Low(x / 4, n)
  {
    Quarter(x);
    assert High(x, n + 2) == High(x / 2, n + 1) == High(x / 2 / 2, n);
    assert Low(x, n + 2) == x % 2 + 2 * Low(x / 2, n + 1);
    assert Low(x / 2, n + 1) == x / 2 % 2 + 2 * Low(x / 2 / 2, n);
  }

  lemma EightIsAByte(x: nat)
    ensures High(x, 8) == x / 256 && Low(x, 8) == x % 256
  {
    TwoBits(x, 6);
    TwoBits(x / 4, 4);
    TwoBits(x / 4 / 4, 2);
    TwoBits(x / 4 / 4 / 4, 0);
    assert x / 4 / 4 == x / 16 && x / 16 / 4 == x / 64 && x / 64 / 4 == x / 256;
  }

  lemma {:induction false} XorHigh(a: nat, b: nat, n: nat)
    ensures High(Xor(a, b), n) == Xor(High(a, n), High(b, n))
    decreases n
  {
    if n > 0 {
      XorHalves(a, b);
      XorHigh(a / 2, b / 2, n - 1);
    }
  }

  /** Eight feedback shifts of a word: its high bytes only move, its low byte selects the feedback. */
  lemma TableStep(crc: uint32, b: uint8)
    ensures Absorb(crc, b) == Xor(crc / 256, Shifts(WordXor(crc, b) % 256, 8))
  {
    var x := WordXor(crc, b);
    EightIsAByte(x);
    EightIsAByte(crc);
    EightIsAByte(b);
    ShiftsSplit(x, 8);
    XorHigh(crc, b, 8);
    XorZero(crc / 256);
  }

  // n shifts of x: the part above the n low bits moves, the n low bits feed back.
  lemma {:induction false} ShiftsSplit(x: uint32, n: nat)
    ensures Shifts(x, n) == Xor(High(x, n), Shifts(Low(x, n), n))
    decreases n
  {
    if n == 0 {
      XorZero(x);
    } else {
      var low := Low(x / 2, n - 1);
      ShiftsOfShift(x, n);
      ShiftsSplit(x / 2, n - 1);
      LowThenShift(x, n);
      ShiftsOfShift(Low(x, n), n);
      XorAssociates(High(x / 2, n - 1), Shifts(low, n - 1), Shifts(Feedback(x), n - 1));
    }
  }

  lemma ShiftsOfShift(x: uint32, n: nat)
    requires n > 0
    ensures Shifts(x, n) == Xor(Shifts(x / 2, n - 1), Shifts(Feedback(x), n - 1))
  {
    var half: uint32, back, m: nat := x / 2, Feedback(x), n - 1;
    assert Shifts(x, n) == Shifts(Shift(x), m);
    assert Shift(x) == WordXor(half, back);
    ShiftsLinear(half, back, m);
  }

  lemma LowThenShift(x: uint32, n: nat)
    requires n > 0
    ensures Low(x, n) / 2 == Low(x / 2, n - 1) && Feedback(Low(x, n)) == Feedback(x)
  {}

  // ---------- Linearity and injectivity ----------

  lemma ShiftLinear(x: uint32, y: uint32)
    ensures Shift(WordXor(x, y)) == Xor(Shift(x), Shift(y))
  {
    XorHalves(x, y);
    XorSelf(POLYNOMIAL);
    XorZero(Feedback(x));
    XorZero(Feedback(y));
    XorExchange(x / 2, Feedback(x), y / 2, Feedback(y));
  }

  lemma {:induction false} ShiftsLinear(x: uint32, y: uint32, n: nat)
    ensures Shifts(WordXor(x, y), n) == Xor(Shifts(x, n), Shifts(y, n))
    decreases n
  {
    if n > 0 {
      ShiftLinear(x, y);
      ShiftsLinear(Shift(x), Shift(y), n - 1);
    }
  }

  // The polynomial's top bit records whether a one fell out.
  lemma ShiftTopBit(x: uint32)
    ensures Shift(x) < 0x8000_0000 <==> x % 2 == 0
    ensures x % 2 == 0 ==> Shift(x) == x / 2
  {
    Pow2At32();
    XorZero(x / 2);
    XorTopBit(x / 2, POLYNOMIAL - Pow2(31), 31);
  }

  lemma ShiftInjective(x: uint32, y: uint32)
    requires Shift(x) == Shift(y)
    ensures x == y
  {
    ShiftTopBit(x);
    ShiftTopBit(y);
    XorInjective(x / 2, y / 2, Feedback(x));
  }

  lemma {:induction false} ShiftsInjective(x: uint32, y: uint32, n: nat)
    requires Shifts(x, n) == Shifts(y, n)
    ensures x == y
    decreases n
  {
    if n > 0 {
      ShiftsInjective(Shift(x), Shift(y), n - 1);
      ShiftInjective(x, y);
    }
  }

  // ---------- The bit stream, least significant bit of each byte first ----------

  function LowBits(w: nat, n: nat): (bits: seq<bool>)
    ensures |bits| == n
    decreases n
  {
    if n == 0 then [] else [w % 2 == 1] + LowBits(w / 2, n - 1)
  }

  function Bits(bytes: seq<uint8>): (bits: seq<bool>)
    ensures |bits| == 8 * |bytes|
  {
    if bytes == [] then [] else LowBits(bytes[0], 8) + Bits(bytes[1..])
  }

  function BitStep(x: uint32, bit: bool): uint32 {
    Shift(WordXor(x, if bit then 1 else 0))
  }

  function BitRegister(x: uint32, bits: seq<bool>): uint32
    decreases |bits|
  {
    if bits == [] then x else BitRegister(BitStep(x, bits[0]), bits[1..])
  }

  lemma {:induction false} BitRegisterAppend(x: uint32, a: seq<bool>, b: seq<bool>)
    ensures BitRegister(x, a + b) == BitRegister(BitRegister(x, a), b)
    decreases |a|
  {
    if a == [] {
      assert a + b == b;
    } else {
      assert (a + b)[1..] == a[1..] + b;
      BitRegisterAppend(BitStep(x, a[0]), a[1..], b);
    }
  }

  // Shifting x ^ w lets w's low bit in first and keeps the rest of w waiting above.
  lemma ShiftFeedsLowBit(x: uint32, w: uint32)
    ensures Shift(WordXor(x, w)) == Xor(BitStep(x, w % 2 == 1), w / 2)
  {
    var low: nat := w % 2;
    var high: nat := w - low;
    assert Xor(low, high) == w by {
      XorHalves(low, high);
      XorZero(high / 2);
    }
    XorAssociates(x, low, high);
    assert Xor(x, w) == Xor(Xor(x, low), high);
    ShiftLinear(WordXor(x, low), high);
    ShiftTopBit(high);
  }

  lemma {:induction false} FeedLowBits(x: uint32, w: uint32, n: nat)
    requires w < Pow2(n)
    ensures Shifts(WordXor(x, w), n) == BitRegister(x, LowBits(w, n))
    decreases n
  {
    if n == 0 {
      XorZero(x);
    } else {
      ShiftFeedsLowBit(x, w);
      FeedLowBits(BitStep(x, w % 2 == 1), w / 2, n - 1);
      assert LowBits(w, n)[1..] == LowBits(w / 2, n - 1);
    }
  }

  /** Feeding bytes is feeding their bits. */
  lemma {:induction false} RegisterIsBitRegister(x: uint32, bytes: seq<uint8>)
    ensures Register(x, bytes) == BitRegister(x, Bits(bytes))
    decreases |bytes|
  {
    if bytes != [] {
      Pow2At32();
      FeedLowBits(x, bytes[0], 8);
      RegisterIsBitRegister(Absorb(x, bytes[0]), bytes[1..]);
      BitRegisterAppend(x, LowBits(bytes[0], 8), Bits(bytes[1..]));
    }
  }

  // ---------- Burst detection ----------

  /** Two runs of at most 32 bits that meet started from registers differing in no more low positions
      than there were bits; from the same register they were the same bits. */
  lemma {:induction false} MeetingRuns(x: uint32, y: uint32, a: seq<bool>, b: seq<bool>)
    requires |a| == |b| <= 32
    requires BitRegister(x, a) == BitRegister(y, b)
    ensures Xor(x, y) < Pow2(|a|)
    ensures x == y ==> a == b
    decreases |a|
  {
    if a == [] {
      XorSelf(x);
    } else {
      var x', y' := BitStep(x, a[0]), BitStep(y, b[0]);
      MeetingRuns(x', y', a[1..], b[1..]);
      BelowTop(Xor(x', y'), |a| - 1);
      StepDifference(x, y, a[0], b[0]);
      HalfBelow(Xor(x, y), |a|);
      assert a == [a[0]] + a[1..] && b == [b[0]] + b[1..];
    }
  }

  lemma BelowTop(d: nat, n: nat)
    requires d < Pow2(n) && n <= 31
    ensures d < 0x8000_0000
  {
    Pow2Grows(n, 31);
    Pow2At32();
  }

  lemma HalfBelow(d: nat, n: nat)
    requires n > 0 && d / 2 < Pow2(n - 1)
    ensures d < Pow2(n)
  {}

  lemma {:induction false} Pow2Grows(m: nat, n: nat)
    requires m <= n
    ensures Pow2(m) <= Pow2(n)
    decreases n
  {
    if m < n { Pow2Grows(m, n - 1); }
  }

  lemma StepDifference(x: uint32, y: uint32, ea: bool, eb: bool)
    requires Xor(BitStep(x, ea), BitStep(y, eb)) < 0x8000_0000
    ensures Xor(x, y) / 2 == Xor(BitStep(x, ea), BitStep(y, eb))
    ensures x == y ==> ea == eb && BitStep(x, ea) == BitStep(y, eb)
  {
    var u: uint32, v: uint32 := if ea then 1 else 0, if eb then 1 else 0;
    ShiftLinear(WordXor(x, u), WordXor(y, v));
    var d := WordXor(WordXor(x, u), WordXor(y, v));
    ShiftTopBit(d);
    XorExchange(x, u, y, v);
    XorHalves(WordXor(x, y), WordXor(u, v));
    XorZero(Xor(x, y) / 2);
    assert Xor(u, v) < 2 by { XorHalves(u, v); }
    XorHalves(u, v);
    if x == y { XorSelf(x); XorZero(Xor(u, v)); }
  }

  lemma {:induction false} SameBitsKeepRegistersApart(x: uint32, y: uint32, bits: seq<bool>)
    requires x != y
    ensures BitRegister(x, bits) != BitRegister(y, bits)
    decreases |bits|
  {
    if bits != [] {
      var e: uint32 := if bits[0] then 1 else 0;
      if WordXor(x, e) == WordXor(y, e) { XorInjective(x, y, e); }
      if BitStep(x, bits[0]) == BitStep(y, bits[0]) { ShiftInjective(WordXor(x, e), WordXor(y, e)); }
      SameBitsKeepRegistersApart(BitStep(x, bits[0]), BitStep(y, bits[0]), bits[1..]);
    }
  }

  lemma BitRegisterThrough(x: uint32, bits: seq<bool>, lo: nat, hi: nat)
    requires lo <= hi <= |bits|
    ensures BitRegister(x, bits) == BitRegister(BitRegister(BitRegister(x, bits[..lo]), bits[lo..hi]), bits[hi..])
  {
    assert bits == bits[..lo] + bits[lo..] && bits[lo..] == bits[lo..hi] + bits[hi..];
    BitRegisterAppend(x, bits[..lo], bits[lo..]);
    BitRegisterAppend(BitRegister(x, bits[..lo]), bits[lo..hi], bits[hi..]);
  }

  lemma BurstSeparates(x: uint32, u: seq<bool>, v: seq<bool>, lo: nat, hi: nat)
    requires |u| == |v| && lo <= hi <= |u| && hi <= lo + 32
    requires u[..lo] == v[..lo] && u[lo..hi] != v[lo..hi] && u[hi..] == v[hi..]
    ensures BitRegister(x, u) != BitRegister(x, v)
  {
    BitRegisterThrough(x, u, lo, hi);
    BitRegisterThrough(x, v, lo, hi);
    var start := BitRegister(x, u[..lo]);
    var y, z := BitRegister(start, u[lo..hi]), BitRegister(start, v[lo..hi]);
    if y == z { MeetingRuns(start, start, u[lo..hi], v[lo..hi]); }
    SameBitsKeepRegistersApart(y, z, u[hi..]);
  }

  lemma BurstOfBits(x: uint32, u: seq<bool>, v: seq<bool>, p: nat)
    requires |u| == |v| && u != v && forall k :: 0 <= k < |u| && u[k] != v[k] ==> p <= k < p + 32
    ensures BitRegister(x, u) != BitRegister(x, v)
  {
    var lo := if p < |u| then p else |u|;
    var hi := if p + 32 < |u| then p + 32 else |u|;
    assert u[..lo] == v[..lo] && u[hi..] == v[hi..];
    assert u == u[..lo] + u[lo..hi] + u[hi..] && v == v[..lo] + v[lo..hi] + v[hi..];
    BurstSeparates(x, u, v, lo, hi);
  }

  /** Every difference confined to 32 consecutive bits changes the checksum. */
  lemma BurstChangesChecksum(a: seq<uint8>, b: seq<uint8>, p: nat)
    requires |a| == |b| && a != b
    requires forall k :: 0 <= k < |Bits(a)| && Bits(a)[k] != Bits(b)[k] ==> p <= k < p + 32
    ensures Checksum(a) != Checksum(b)
  {
    if Bits(a) == Bits(b) { BitsInjective(a, b); }
    BurstOfBits(ALL_ONES, Bits(a), Bits(b), p);
    RegisterIsBitRegister(ALL_ONES, a);
    RegisterIsBitRegister(ALL_ONES, b);
    if Checksum(a) == Checksum(b) {
      XorInjective(Register(ALL_ONES, a), Register(ALL_ONES, b), ALL_ONES);
    }
  }

  lemma {:induction false} BitsAppend(a: seq<uint8>, b: seq<uint8>)
    ensures Bits(a + b) == Bits(a) + Bits(b)
  {
    if a == [] {
      assert a + b == b;
    } else {
      assert (a + b)[1..] == a[1..] + b;
      BitsAppend(a[1..], b);
    }
  }

  lemma {:induction false} LowBitsInjective(v: nat, w: nat, n: nat)
    requires v < Pow2(n) && w < Pow2(n) && LowBits(v, n) == LowBits(w, n)
    ensures v == w
    decreases n
  {
    if n > 0 {
      assert LowBits(v, n)[0] == LowBits(w, n)[0];
      assert LowBits(v, n)[1..] == LowBits(v / 2, n - 1) && LowBits(w, n)[1..] == LowBits(w / 2, n - 1);
      LowBitsInjective(v / 2, w / 2, n - 1);
    }
  }

  lemma {:induction false} BitsInjective(a: seq<uint8>, b: seq<uint8>)
    requires |a| == |b| && Bits(a) == Bits(b)
    ensures a == b
  {
    if a != [] {
      FirstByteOfBits(a);
      FirstByteOfBits(b);
      assert a[0] == b[0] by { Pow2At32(); LowBitsInjective(a[0], b[0], 8); }
      BitsInjective(a[1..], b[1..]);
      assert a == [a[0]] + a[1..] && b == [b[0]] + b[1..];
    }
  }

  lemma FirstByteOfBits(a: seq<uint8>)
    requires a != []
    ensures Bits(a)[..8] == LowBits(a[0], 8) && Bits(a)[8..] == Bits(a[1..])
  {}

  /** Rewriting at most four adjacent bytes changes the checksum. */
  lemma FourBytesChangeChecksum(prefix: seq<uint8>, old4: seq<uint8>, new4: seq<uint8>, suffix: seq<uint8>)
    requires |old4| == |new4| <= 4 && old4 != new4
    ensures Checksum(prefix + old4 + suffix) != Checksum(prefix + new4 + suffix)
  {
    var a, b := prefix + old4 + suffix, prefix + new4 + suffix;
    var p, q, r, s := Bits(prefix), Bits(old4), Bits(new4), Bits(suffix);
    assert Bits(a) == p + q + s by { BitsAppend(prefix + old4, suffix); BitsAppend(prefix, old4); }
    assert Bits(b) == p + r + s by { BitsAppend(prefix + new4, suffix); BitsAppend(prefix, new4); }
    assert a != b by {
      assert a[|prefix|..|prefix| + |old4|] == old4 && b[|prefix|..|prefix| + |old4|] == new4;
    }
    DifferenceInside(p, q, r, s);
    BurstChangesChecksum(a, b, |p|);
  }

  lemma DifferenceInside(p: seq<bool>, q: seq<bool>, r: seq<bool>, s: seq<bool>)
    requires |q| == |r| <= 32
    ensures forall k :: 0 <= k < |p + q + s| && (p + q + s)[k] != (p + r + s)[k] ==> |p| <= k < |p| + 32
  {}
}
