/** The checksum as the remainder of the message divided by the IEEE 802.3 generator (clause 3.2.9). */
module CrcGenerator {
  import opened Binary
  import opened Crc

  // A polynomial is the set of the exponents whose coefficient is one.
  type Polynomial = set<nat>

  const GENERATOR: Polynomial := {32, 26, 23, 22, 16, 12, 11, 10, 8, 7, 5, 4, 2, 1, 0}

  function Sum(p: Polynomial, q: Polynomial): Polynomial {
    (p - q) + (q - p)
  }

  function TimesX(p: Polynomial): Polynomial {
    set e: nat | e in p :: e + 1
  }

  /** The generator times the quotient with these coefficients, the highest first. */
  function Multiple(quotient: seq<bool>): Polynomial {
    if quotient == [] then {} else
      var n := |quotient| - 1;
      Sum(TimesX(Multiple(quotient[..n])), if quotient[n] then GENERATOR else {})
  }

  predicate Bit(x: nat, k: nat) {
    if k == 0 then x % 2 == 1 else Bit(x / 2, k - 1)
  }

  // The lowest bit of a register is the coefficient of the 31st power.
  predicate HasPower(x: uint32, e: nat) {
    e < 32 && Bit(x, 31 - e)
  }

  function OfRegister(x: uint32): Polynomial {
    set e: nat | e < 32 && HasPower(x, e)
  }

  // The bits as a polynomial, the first bit highest, times the 32nd power, and the starting register above it.
  predicate Divides(x: uint32, bits: seq<bool>, e: nat) {
    var n := |bits|;
    (n <= e && HasPower(x, e - n)) != (32 <= e < n + 32 && bits[n + 31 - e])
  }

  function Dividend(x: uint32, bits: seq<bool>): Polynomial {
    set e: nat | e < |bits| + 32 && Divides(x, bits, e)
  }

  // ---------- One bit ----------

  lemma {:induction false} BitOfXor(x: nat, y: nat, k: nat)
    ensures Bit(Xor(x, y), k) <==> Bit(x, k) != Bit(y, k)
    decreases k
  {
    XorHalves(x, y);
    if k > 0 {
      BitOfXor(x / 2, y / 2, k - 1);
    }
  }

  lemma {:induction false} NoBitsAbove(x: nat, k: nat)
    requires x < Pow2(k)
    ensures !Bit(x, k)
    decreases k
  {
    if k > 0 {
      NoBitsAbove(x / 2, k - 1);
    }
  }

  lemma {:induction false} BitsDecide(x: nat, y: nat, n: nat)
    requires x < Pow2(n) && y < Pow2(n)
    requires forall k: nat :: k < n ==> Bit(x, k) == Bit(y, k)
    ensures x == y
    decreases n
  {
    if n > 0 {
      assert Bit(x, 0) == Bit(y, 0);
      forall k: nat | k < n - 1 ensures Bit(x / 2, k) == Bit(y / 2, k) {
        assert Bit(x, k + 1) == Bit(y, k + 1);
      }
      BitsDecide(x / 2, y / 2, n - 1);
    }
  }

  lemma FourBits(x: nat, k: nat)
    ensures Bit(x, k) <==> if k == 0 then x % 2 == 1 else if k == 1 then x / 2 % 2 == 1
                           else if k == 2 then x / 4 % 2 == 1 else if k == 3 then x / 8 % 2 == 1
                           else Bit(x / 16, k - 4)
  {
    assert x / 2 / 2 == x / 4 && x / 4 / 2 == x / 8 && x / 8 / 2 == x / 16;
    if k >= 4 {
      assert Bit(x, k) == Bit(x / 2, k - 1) == Bit(x / 4, k - 2) == Bit(x / 8, k - 3) == Bit(x / 16, k - 4);
    } else if k == 3 {
      assert Bit(x, k) == Bit(x / 2, 2) == Bit(x / 4, 1) == Bit(x / 8, 0);
    } else if k == 2 {
      assert Bit(x, k) == Bit(x / 2, 1) == Bit(x / 4, 0);
    }
  }

  lemma {:induction false} BitsOfGenerator(k: nat)
    requires k < 32
    ensures Bit(POLYNOMIAL, k) <==> 31 - k in GENERATOR
  {
    FourBits(0xEDB88320, k);
    if k >= 4 { FourBits(0xEDB8832, k - 4); }
    if k >= 8 { FourBits(0xEDB883, k - 8); }
    if k >= 12 { FourBits(0xEDB88, k - 12); }
    if k >= 16 { FourBits(0xEDB8, k - 16); }
    if k >= 20 { FourBits(0xEDB, k - 20); }
    if k >= 24 { FourBits(0xED, k - 24); }
    if k >= 28 { FourBits(0xE, k - 28); }
  }

  lemma {:induction false} NoPowers(e: nat)
    requires e < 32
    ensures !HasPower(0, e)
  {
    NoBitsAbove(0, 31 - e);
  }

  // One step on the register y that has the incoming bit in its lowest place.
  lemma {:induction false} PowersOfShift(y: uint32, e: nat)
    requires e < 32
    ensures HasPower(Shift(y), e) <==> (e > 0 && HasPower(y, e - 1)) != (HasPower(y, 31) && e in GENERATOR)
  {
    var k := 31 - e;
    BitOfXor(y / 2, Feedback(y), k);
    BitsOfGenerator(k);
    NoPowers(e);
    assert HasPower(y, 31) <==> y % 2 == 1;
    if e == 0 {
      Pow2At32();
      NoBitsAbove(y / 2, 31);
    } else {
      assert Bit(y, 31 - (e - 1)) == Bit(y / 2, k);
    }
  }

  lemma {:induction false} PowersOfFed(x: uint32, bit: bool, e: nat)
    requires e < 32
    ensures HasPower(WordXor(x, if bit then 1 else 0), e) <==> HasPower(x, e) != (bit && e == 31)
  {
    var one: nat := if bit then 1 else 0;
    BitOfXor(x, one, 31 - e);
    if e < 31 {
      assert Bit(one, 31 - e) == Bit(0, 30 - e);
      NoBitsAbove(0, 30 - e);
    }
  }

  /** One bit goes in: the remainder times x, the bit at the 32nd power, and the generator when the 32nd
      power is then left. */
  lemma {:induction false} StepReduces(x: uint32, bit: bool)
    ensures OfRegister(BitStep(x, bit))
         == Sum(Sum(TimesX(OfRegister(x)), if bit then {32} else {}),
                if HasPower(x, 31) != bit then GENERATOR else {})
  {
    var y := WordXor(x, if bit then 1 else 0);
    var before, after := OfRegister(x), OfRegister(Shift(y));
    var shifted := Sum(TimesX(before), if bit then {32} else {});
    var r := Sum(shifted, if HasPower(x, 31) != bit then GENERATOR else {});
    PowersOfFed(x, bit, 31);
    forall e: nat ensures e in after <==> e in r {
      InTimesX(before, e);
      if e < 32 {
        PowersOfShift(y, e);
        if e > 0 { PowersOfFed(x, bit, e - 1); }
      }
    }
  }

  lemma InTimesX(p: Polynomial, e: nat)
    ensures e in TimesX(p) <==> e > 0 && e - 1 in p
  {}

  // ---------- The law of division ----------

  // The quotient: the steps that left a 32nd power.
  function Quotient(x: uint32, bits: seq<bool>): (q: seq<bool>)
    ensures |q| == |bits|
    decreases |bits|
  {
    if bits == [] then [] else
      var n := |bits| - 1;
      Quotient(x, bits[..n]) + [HasPower(BitRegister(x, bits[..n]), 31) != bits[n]]
  }

  lemma {:induction false} LastStep(x: uint32, bits: seq<bool>)
    requires bits != []
    ensures BitRegister(x, bits) == BitStep(BitRegister(x, bits[..|bits| - 1]), bits[|bits| - 1])
  {
    var n := |bits| - 1;
    assert bits == bits[..n] + [bits[n]];
    BitRegisterAppend(x, bits[..n], [bits[n]]);
  }

  lemma {:induction false} DividendFurther(x: uint32, bits: seq<bool>)
    requires bits != []
    ensures Dividend(x, bits)
         == Sum(TimesX(Dividend(x, bits[..|bits| - 1])), if bits[|bits| - 1] then {32} else {})
  {
    var n := |bits| - 1;
    var before := Dividend(x, bits[..n]);
    var after := Sum(TimesX(before), if bits[n] then {32} else {});
    forall e: nat ensures e in Dividend(x, bits) <==> e in after {
      InTimesX(before, e);
      assert e > 0 ==> (e in Dividend(x, bits) <==> (e - 1 in before) != (e == 32 && bits[n]));
    }
  }

  /** The dividend is the quotient times the generator plus what the register holds. */
  lemma {:induction false} Division(x: uint32, bits: seq<bool>)
    ensures Sum(Dividend(x, bits), OfRegister(BitRegister(x, bits))) == Multiple(Quotient(x, bits))
    decreases |bits|
  {
    if bits == [] {
      assert Dividend(x, bits) == OfRegister(x);
    } else {
      var n := |bits| - 1;
      Division(x, bits[..n]);
      DividendFurther(x, bits);
      LastStep(x, bits);
      StepReduces(BitRegister(x, bits[..n]), bits[n]);
      var q := Quotient(x, bits);
      assert q[..n] == Quotient(x, bits[..n]);
      SumFurther(Dividend(x, bits[..n]), OfRegister(BitRegister(x, bits[..n])), Multiple(q[..n]),
                 if bits[n] then {32} else {}, if q[n] then GENERATOR else {});
    }
  }

  lemma SumFurther(d: Polynomial, r: Polynomial, m: Polynomial, b: Polynomial, g: Polynomial)
    requires Sum(d, r) == m
    ensures Sum(Sum(TimesX(d), b), Sum(Sum(TimesX(r), b), g)) == Sum(TimesX(m), g)
  {
    forall e: nat
      ensures e in Sum(Sum(TimesX(d), b), Sum(Sum(TimesX(r), b), g)) <==> e in Sum(TimesX(m), g)
    {
      InTimesX(d, e);
      InTimesX(r, e);
      InTimesX(m, e);
      if e > 0 { assert e - 1 in m <==> (e - 1 in d) != (e - 1 in r); }
    }
  }

  // ---------- No other remainder ----------

  function Differences(p: seq<bool>, q: seq<bool>): (d: seq<bool>)
    requires |p| == |q|
    ensures |d| == |p|
  {
    seq(|p|, i requires 0 <= i < |p| => p[i] != q[i])
  }

  lemma {:induction false} SumOfMultiples(p: seq<bool>, q: seq<bool>)
    requires |p| == |q|
    ensures Sum(Multiple(p), Multiple(q)) == Multiple(Differences(p, q))
    decreases |p|
  {
    if p != [] {
      var n := |p| - 1;
      var d := Differences(p, q);
      SumOfMultiples(p[..n], q[..n]);
      assert d[..n] == Differences(p[..n], q[..n]);
      var g, h := if p[n] then GENERATOR else {}, if q[n] then GENERATOR else {};
      var both := if d[n] then GENERATOR else {};
      assert both == Sum(g, h);
      SumOfShifted(Multiple(p[..n]), Multiple(q[..n]), Multiple(d[..n]), g, h);
    }
  }

  lemma SumOfShifted(p: Polynomial, q: Polynomial, r: Polynomial, g: Polynomial, h: Polynomial)
    requires Sum(p, q) == r
    ensures Sum(Sum(TimesX(p), g), Sum(TimesX(q), h)) == Sum(TimesX(r), Sum(g, h))
  {
    forall e: nat
      ensures e in Sum(Sum(TimesX(p), g), Sum(TimesX(q), h)) <==> e in Sum(TimesX(r), Sum(g, h))
    {
      InTimesX(p, e);
      InTimesX(q, e);
      InTimesX(r, e);
      if e > 0 { assert e - 1 in r <==> (e - 1 in p) != (e - 1 in q); }
    }
  }

  // A multiple of the generator is zero or reaches the 32nd power.
  lemma {:induction false} MultiplesAreHigh(q: seq<bool>) returns (top: nat)
    ensures Multiple(q) != {} ==> top >= 32 && top in Multiple(q)
    decreases |q|
  {
    top := 32;
    if q != [] {
      var n := |q| - 1;
      var below := MultiplesAreHigh(q[..n]);
      var g := if q[n] then GENERATOR else {};
      top := HighestOfStep(Multiple(q[..n]), g, below);
    }
  }

  lemma HighestOfStep(rest: Polynomial, g: Polynomial, below: nat) returns (top: nat)
    requires rest != {} ==> below >= 32 && below in rest
    requires g == GENERATOR || g == {}
    ensures Sum(TimesX(rest), g) != {} ==> top >= 32 && top in Sum(TimesX(rest), g)
  {
    top := if rest == {} then 32 else below + 1;
    InTimesX(rest, top);
    if rest == {} {
      assert TimesX(rest) == {};
    } else {
      assert top !in g;
    }
  }

  /** Only one register is a remainder of the dividend. */
  lemma {:induction false} RemainderIsUnique(d: Polynomial, x: uint32, y: uint32, p: seq<bool>, q: seq<bool>)
    requires |p| == |q|
    requires Sum(d, OfRegister(x)) == Multiple(p) && Sum(d, OfRegister(y)) == Multiple(q)
    ensures x == y
  {
    SumOfMultiples(p, q);
    var top := MultiplesAreHigh(Differences(p, q));
    assert Multiple(Differences(p, q)) == Sum(OfRegister(x), OfRegister(y));
    assert Multiple(Differences(p, q)) == {};
    forall k: nat | k < 32 ensures Bit(x, k) == Bit(y, k) {
      assert HasPower(x, 31 - k) <==> 31 - k in OfRegister(x);
      assert HasPower(y, 31 - k) <==> 31 - k in OfRegister(y);
    }
    Pow2At32();
    BitsDecide(x, y, 32);
  }

  // ---------- The checksum ----------

  // The coefficients of the message times the 32nd power, the first 32 of them complemented.
  predicate HasCoefficient(bits: seq<bool>, e: nat) {
    (|bits| <= e < |bits| + 32) != (32 <= e < |bits| + 32 && bits[|bits| + 31 - e])
  }

  function Complemented(bits: seq<bool>): Polynomial {
    set e: nat | e < |bits| + 32 && HasCoefficient(bits, e)
  }

  lemma {:induction false} BitsOfAllOnes(k: nat)
    requires k < 32
    ensures Bit(ALL_ONES, k)
  {
    FourBits(0xFFFFFFFF, k);
    if k >= 4 { FourBits(0xFFFFFFF, k - 4); }
    if k >= 8 { FourBits(0xFFFFFF, k - 8); }
    if k >= 12 { FourBits(0xFFFFF, k - 12); }
    if k >= 16 { FourBits(0xFFFF, k - 16); }
    if k >= 20 { FourBits(0xFFF, k - 20); }
    if k >= 24 { FourBits(0xFF, k - 24); }
    if k >= 28 { FourBits(0xF, k - 28); }
  }

  lemma {:induction false} DividendIsComplemented(bits: seq<bool>)
    ensures Dividend(ALL_ONES, bits) == Complemented(bits)
  {
    var n := |bits|;
    forall e: nat | e < n + 32 ensures Divides(ALL_ONES, bits, e) == HasCoefficient(bits, e) {
      if n <= e { BitsOfAllOnes(31 - (e - n)); }
    }
    forall e: nat ensures e in Dividend(ALL_ONES, bits) <==> e in Complemented(bits) {}
  }

  ghost predicate Remainder(bits: seq<bool>, x: uint32) {
    exists q: seq<bool> :: |q| == |bits| && Sum(Complemented(bits), OfRegister(x)) == Multiple(q)
  }

  /** The checksum is the one number whose complement is the remainder of the message, with its first 32
      bits complemented and times the 32nd power, by the generator. */
  lemma {:induction false} ChecksumIsRemainder(bytes: seq<uint8>, c: uint32)
    ensures c == Checksum(bytes) <==> Remainder(Bits(bytes), WordXor(c, ALL_ONES))
  {
    var bits := Bits(bytes);
    var x := Register(ALL_ONES, bytes);
    RegisterIsBitRegister(ALL_ONES, bytes);
    Division(ALL_ONES, bits);
    DividendIsComplemented(bits);
    XorTwice(x);
    XorTwice(c);
    if Remainder(bits, WordXor(c, ALL_ONES)) {
      var q: seq<bool> :| |q| == |bits| && Sum(Complemented(bits), OfRegister(WordXor(c, ALL_ONES))) == Multiple(q);
      RemainderIsUnique(Complemented(bits), x, WordXor(c, ALL_ONES), Quotient(ALL_ONES, bits), q);
    }
  }

  lemma {:induction false} XorTwice(x: uint32)
    ensures WordXor(WordXor(x, ALL_ONES), ALL_ONES) == x
  {
    XorAssociates(x, ALL_ONES, ALL_ONES);
    XorSelf(ALL_ONES);
    XorZero(x);
  }
}
