/** The check value of the code: the checksum of the nine characters "123456789", computed a hexadecimal
    digit at a time. */
module CrcCheckValue {
  import opened Binary
  import opened Crc

  datatype Digit = Digit(b3: bool, b2: bool, b1: bool, b0: bool)

  // Eight digits, the highest first.
  datatype Word = Word(d7: Digit, d6: Digit, d5: Digit, d4: Digit, d3: Digit, d2: Digit, d1: Digit, d0: Digit)

  const H0 := Digit(false, false, false, false)
  const H1 := Digit(false, false, false, true)
  const H2 := Digit(false, false, true, false)
  const H3 := Digit(false, false, true, true)
  const H4 := Digit(false, true, false, false)
  const H5 := Digit(false, true, false, true)
  const H6 := Digit(false, true, true, false)
  const H7 := Digit(false, true, true, true)
  const H8 := Digit(true, false, false, false)
  const H9 := Digit(true, false, false, true)
  const HA := Digit(true, false, true, false)
  const HB := Digit(true, false, true, true)
  const HC := Digit(true, true, false, false)
  const HD := Digit(true, true, false, true)
  const HE := Digit(true, true, true, false)
  const HF := Digit(true, true, true, true)

  const ZEROES := Word(H0, H0, H0, H0, H0, H0, H0, H0)

  function AfterBit(high: nat, bit: bool): nat {
    2 * high + if bit then 1 else 0
  }

  function AfterDigit(high: nat, d: Digit): nat {
    AfterBit(AfterBit(AfterBit(AfterBit(high, d.b3), d.b2), d.b1), d.b0)
  }

  function Value(w: Word): (value: uint32) {
    AfterDigit(AfterDigit(AfterDigit(AfterDigit(AfterDigit(AfterDigit(AfterDigit(AfterDigit(0,
      w.d7), w.d6), w.d5), w.d4), w.d3), w.d2), w.d1), w.d0)
  }

  // ---------- Exclusive or, digit by digit ----------

  function PlusDigit(a: Digit, b: Digit): Digit {
    Digit(a.b3 != b.b3, a.b2 != b.b2, a.b1 != b.b1, a.b0 != b.b0)
  }

  function Plus(a: Word, b: Word): Word {
    Word(PlusDigit(a.d7, b.d7), PlusDigit(a.d6, b.d6), PlusDigit(a.d5, b.d5), PlusDigit(a.d4, b.d4),
         PlusDigit(a.d3, b.d3), PlusDigit(a.d2, b.d2), PlusDigit(a.d1, b.d1), PlusDigit(a.d0, b.d0))
  }

  lemma {:induction false} XorAfterBit(x: nat, y: nat, z: nat, p: bool, q: bool)
    requires Xor(x, y) == z
    ensures Xor(AfterBit(x, p), AfterBit(y, q)) == AfterBit(z, p != q)
  {
    XorHalves(AfterBit(x, p), AfterBit(y, q));
    assert AfterBit(x, p) / 2 == x && AfterBit(y, q) / 2 == y;
  }

  lemma {:induction false} XorAfterDigit(x: nat, y: nat, z: nat, a: Digit, b: Digit)
    requires Xor(x, y) == z
    ensures Xor(AfterDigit(x, a), AfterDigit(y, b)) == AfterDigit(z, PlusDigit(a, b))
  {
    var c := PlusDigit(a, b);
    var x3, y3, z3 := AfterBit(x, a.b3), AfterBit(y, b.b3), AfterBit(z, c.b3);
    XorAfterBit(x, y, z, a.b3, b.b3);
    var x2, y2, z2 := AfterBit(x3, a.b2), AfterBit(y3, b.b2), AfterBit(z3, c.b2);
    XorAfterBit(x3, y3, z3, a.b2, b.b2);
    var x1, y1, z1 := AfterBit(x2, a.b1), AfterBit(y2, b.b1), AfterBit(z2, c.b1);
    XorAfterBit(x2, y2, z2, a.b1, b.b1);
    XorAfterBit(x1, y1, z1, a.b0, b.b0);
  }

  lemma {:induction false} XorIsPlus(a: Word, b: Word)
    ensures Xor(Value(a), Value(b)) == Value(Plus(a, b))
  {
    XorZero(0);
    var c := Plus(a, b);
    var x7, y7, z7 := AfterDigit(0, a.d7), AfterDigit(0, b.d7), AfterDigit(0, c.d7);
    XorAfterDigit(0, 0, 0, a.d7, b.d7);
    var x6, y6, z6 := AfterDigit(x7, a.d6), AfterDigit(y7, b.d6), AfterDigit(z7, c.d6);
    XorAfterDigit(x7, y7, z7, a.d6, b.d6);
    var x5, y5, z5 := AfterDigit(x6, a.d5), AfterDigit(y6, b.d5), AfterDigit(z6, c.d5);
    XorAfterDigit(x6, y6, z6, a.d5, b.d5);
    var x4, y4, z4 := AfterDigit(x5, a.d4), AfterDigit(y5, b.d4), AfterDigit(z5, c.d4);
    XorAfterDigit(x5, y5, z5, a.d4, b.d4);
    var x3, y3, z3 := AfterDigit(x4, a.d3), AfterDigit(y4, b.d3), AfterDigit(z4, c.d3);
    XorAfterDigit(x4, y4, z4, a.d3, b.d3);
    var x2, y2, z2 := AfterDigit(x3, a.d2), AfterDigit(y3, b.d2), AfterDigit(z3, c.d2);
    XorAfterDigit(x3, y3, z3, a.d2, b.d2);
    var x1, y1, z1 := AfterDigit(x2, a.d1), AfterDigit(y2, b.d1), AfterDigit(z2, c.d1);
    XorAfterDigit(x2, y2, z2, a.d1, b.d1);
    XorAfterDigit(x1, y1, z1, a.d0, b.d0);
  }

  // ---------- A shift of the register ----------

  const FEEDBACK := Word(HE, HD, HB, H8, H8, H3, H2, H0)

  function HalfDigit(above: Digit, d: Digit): Digit {
    Digit(above.b0, d.b3, d.b2, d.b1)
  }

  function Half(w: Word): Word {
    Word(HalfDigit(H0, w.d7), HalfDigit(w.d7, w.d6), HalfDigit(w.d6, w.d5), HalfDigit(w.d5, w.d4),
         HalfDigit(w.d4, w.d3), HalfDigit(w.d3, w.d2), HalfDigit(w.d2, w.d1), HalfDigit(w.d1, w.d0))
  }

  function ShiftWord(w: Word): Word {
    Plus(Half(w), if w.d0.b0 then FEEDBACK else ZEROES)
  }

  // A number and its half, one digit further down.
  lemma HalfFurther(x: nat, y: nat, above: Digit, d: Digit)
    requires x == AfterBit(y, above.b0)
    ensures AfterDigit(x, d) == AfterBit(AfterDigit(y, HalfDigit(above, d)), d.b0)
  {}

  lemma ValueOfHalf(w: Word)
    ensures Value(w) == AfterBit(Value(Half(w)), w.d0.b0)
  {
    var h := Half(w);
    HalfFurther(0, 0, H0, w.d7);
    var x7, y7 := AfterDigit(0, w.d7), AfterDigit(0, h.d7);
    HalfFurther(x7, y7, w.d7, w.d6);
    var x6, y6 := AfterDigit(x7, w.d6), AfterDigit(y7, h.d6);
    HalfFurther(x6, y6, w.d6, w.d5);
    var x5, y5 := AfterDigit(x6, w.d5), AfterDigit(y6, h.d5);
    HalfFurther(x5, y5, w.d5, w.d4);
    var x4, y4 := AfterDigit(x5, w.d4), AfterDigit(y5, h.d4);
    HalfFurther(x4, y4, w.d4, w.d3);
    var x3, y3 := AfterDigit(x4, w.d3), AfterDigit(y4, h.d3);
    HalfFurther(x3, y3, w.d3, w.d2);
    var x2, y2 := AfterDigit(x3, w.d2), AfterDigit(y3, h.d2);
    HalfFurther(x2, y2, w.d2, w.d1);
    HalfFurther(AfterDigit(x2, w.d1), AfterDigit(y2, h.d1), w.d1, w.d0);
  }

  lemma {:induction false} ShiftIs(w: Word)
    ensures Shift(Value(w)) == Value(ShiftWord(w))
  {
    var h, f := Half(w), if w.d0.b0 then FEEDBACK else ZEROES;
    ValueOfHalf(w);
    assert Value(w) / 2 == Value(h) && Value(w) % 2 == if w.d0.b0 then 1 else 0;
    assert Value(f) == Feedback(Value(w));
    XorIsPlus(h, f);
  }

  function ShiftWords(w: Word, n: nat): Word
    decreases n
  {
    if n == 0 then w else ShiftWords(ShiftWord(w), n - 1)
  }

  lemma {:induction false} ShiftsAre(w: Word, n: nat)
    ensures Shifts(Value(w), n) == Value(ShiftWords(w, n))
    decreases n
  {
    if n > 0 {
      ShiftIs(w);
      ShiftsAre(ShiftWord(w), n - 1);
    }
  }

  // ---------- The nine characters ----------

  function AfterByte(w: Word, high: Digit, low: Digit): Word {
    ShiftWords(Plus(w, ZEROES.(d1 := high, d0 := low)), 8)
  }

  lemma {:induction false} AbsorbIs(w: Word, low: Digit, b: uint8, next: Word)
    requires b == Value(ZEROES.(d1 := H3, d0 := low)) && next == AfterByte(w, H3, low)
    ensures Absorb(Value(w), b) == Value(next)
  {
    XorIsPlus(w, ZEROES.(d1 := H3, d0 := low));
    ShiftsAre(Plus(w, ZEROES.(d1 := H3, d0 := low)), 8);
  }

  // The words that the bytes take the register through: byte i is a character with the given low digit.
  ghost predicate Through(w: seq<Word>, low: seq<Digit>, bytes: seq<uint8>) {
    && |w| == |bytes| + 1 && |low| == |bytes|
    && forall i: nat :: i < |bytes| ==> StepsTo(w[i], low[i], bytes[i], w[i + 1])
  }

  predicate StepsTo(w: Word, low: Digit, b: uint8, next: Word) {
    b == Value(ZEROES.(d1 := H3, d0 := low)) && next == AfterByte(w, H3, low)
  }

  lemma {:induction false} RegisterThrough(w: seq<Word>, low: seq<Digit>, bytes: seq<uint8>)
    requires Through(w, low, bytes)
    ensures Register(Value(w[0]), bytes) == Value(w[|bytes|])
    decreases |bytes|
  {
    if bytes != [] {
      assert StepsTo(w[0], low[0], bytes[0], w[1]);
      AbsorbIs(w[0], low[0], bytes[0], w[1]);
      forall i: nat | i < |bytes| - 1 ensures StepsTo(w[1..][i], low[1..][i], bytes[1..][i], w[1..][i + 1]) {
        assert StepsTo(w[i + 1], low[i + 1], bytes[i + 1], w[i + 2]);
      }
      RegisterThrough(w[1..], low[1..], bytes[1..]);
    }
  }

  lemma {:induction false} ChecksumThrough(w: seq<Word>, low: seq<Digit>, bytes: seq<uint8>)
    requires Through(w, low, bytes) && Value(w[0]) == ALL_ONES
    ensures Checksum(bytes) == Value(Plus(w[|bytes|], w[0]))
  {
    RegisterThrough(w, low, bytes);
    XorIsPlus(w[|bytes|], w[0]);
  }

  // The registers before the nine characters and after each of them.
  ghost predicate Visited(w: seq<Word>) {
    && |w| == 10
    && w[0] == Word(HF, HF, HF, HF, HF, HF, HF, HF)
    && w[1] == Word(H7, HC, H2, H3, H1, H0, H4, H8)
    && w[2] == Word(HB, H0, HA, HC, HB, HB, H3, H2)
    && w[3] == Word(H7, H7, HB, H7, H9, HC, H2, HD)
    && w[4] == Word(H6, H4, H1, HC, H1, HF, H5, HC)
    && w[5] == Word(H3, H4, H0, HA, HC, H5, HE, H3)
    && w[6] == Word(HF, H6, H8, HD, H2, HC, H9, HE)
    && w[7] == Word(HA, HF, HF, HC, H9, H6, H6, H0)
    && w[8] == Word(H6, H5, H1, HF, H2, H5, H5, H0)
    && w[9] == Word(H3, H4, H0, HB, HC, H6, HD, H9)
  }

  ghost predicate LowDigits(low: seq<Digit>) {
    && |low| == 9
    && low[0] == H1
    && low[1] == H2
    && low[2] == H3
    && low[3] == H4
    && low[4] == H5
    && low[5] == H6
    && low[6] == H7
    && low[7] == H8
    && low[8] == H9
  }

  lemma {:induction false} FirstThree(a: Word, b: Word, c: Word, d: Word)
    requires a == Word(HF, HF, HF, HF, HF, HF, HF, HF) && b == Word(H7, HC, H2, H3, H1, H0, H4, H8)
    requires c == Word(HB, H0, HA, HC, HB, HB, H3, H2) && d == Word(H7, H7, HB, H7, H9, HC, H2, HD)
    ensures b == AfterByte(a, H3, H1) && c == AfterByte(b, H3, H2) && d == AfterByte(c, H3, H3)
  {}

  lemma {:induction false} NextThree(a: Word, b: Word, c: Word, d: Word)
    requires a == Word(H7, H7, HB, H7, H9, HC, H2, HD) && b == Word(H6, H4, H1, HC, H1, HF, H5, HC)
    requires c == Word(H3, H4, H0, HA, HC, H5, HE, H3) && d == Word(HF, H6, H8, HD, H2, HC, H9, HE)
    ensures b == AfterByte(a, H3, H4) && c == AfterByte(b, H3, H5) && d == AfterByte(c, H3, H6)
  {}

  lemma {:induction false} LastThree(a: Word, b: Word, c: Word, d: Word)
    requires a == Word(HF, H6, H8, HD, H2, HC, H9, HE) && b == Word(HA, HF, HF, HC, H9, H6, H6, H0)
    requires c == Word(H6, H5, H1, HF, H2, H5, H5, H0) && d == Word(H3, H4, H0, HB, HC, H6, HD, H9)
    ensures b == AfterByte(a, H3, H7) && c == AfterByte(b, H3, H8) && d == AfterByte(c, H3, H9)
  {}

  // The character of a digit d is 0x30 + d.
  lemma Character(low: Digit, b: uint8)
    requires b == 0x30 + AfterDigit(0, low)
    ensures b == Value(ZEROES.(d1 := H3, d0 := low))
  {}

  lemma {:induction false} Walk(w: seq<Word>, low: seq<Digit>, bytes: seq<uint8>)
    requires Visited(w) && LowDigits(low)
    requires |bytes| == 9 && forall i: nat :: i < 9 ==> bytes[i] == 0x31 + i
    ensures Through(w, low, bytes)
  {
    FirstThree(w[0], w[1], w[2], w[3]);
    NextThree(w[3], w[4], w[5], w[6]);
    LastThree(w[6], w[7], w[8], w[9]);
    forall i: nat | i < 9 ensures StepsTo(w[i], low[i], bytes[i], w[i + 1]) {
      Character(low[i], bytes[i]);
    }
  }

  lemma {:induction false} FirstValue(a: Word)
    requires a == Word(HF, HF, HF, HF, HF, HF, HF, HF)
    ensures Value(a) == ALL_ONES
  {}

  lemma {:induction false} LastValue(a: Word, b: Word)
    requires a == Word(HF, HF, HF, HF, HF, HF, HF, HF) && b == Word(H3, H4, H0, HB, HC, H6, HD, H9)
    ensures Value(Plus(b, a)) == 0xCBF43926
  {
    assert Plus(b, a) == Word(HC, HB, HF, H4, H3, H9, H2, H6);
  }

  /** The published check value of the code: the checksum of "123456789". */
  lemma {:induction false} CheckValue(bytes: seq<uint8>)
    requires |bytes| == 9 && forall i: nat :: i < 9 ==> bytes[i] == 0x31 + i
    ensures Checksum(bytes) == 0xCBF43926
  {
    var w := [Word(HF, HF, HF, HF, HF, HF, HF, HF),
              Word(H7, HC, H2, H3, H1, H0, H4, H8),
              Word(HB, H0, HA, HC, HB, HB, H3, H2),
              Word(H7, H7, HB, H7, H9, HC, H2, HD),
              Word(H6, H4, H1, HC, H1, HF, H5, HC),
              Word(H3, H4, H0, HA, HC, H5, HE, H3),
              Word(HF, H6, H8, HD, H2, HC, H9, HE),
              Word(HA, HF, HF, HC, H9, H6, H6, H0),
              Word(H6, H5, H1, HF, H2, H5, H5, H0),
              Word(H3, H4, H0, HB, HC, H6, HD, H9)];
    var low := [H1, H2, H3, H4, H5, H6, H7, H8, H9];
    Walk(w, low, bytes);
    FirstValue(w[0]);
    LastValue(w[0], w[9]);
    ChecksumThrough(w, low, bytes);
  }
}
