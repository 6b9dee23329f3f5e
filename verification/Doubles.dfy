/** Double-precision numbers given by their bits (IEEE 754): which are finite, their values, that the bits of
    magnitudes are ordered like the magnitudes, and the double nearest to a natural number, which is what
    Number makes of it. */
module Doubles {
  import opened Binary

  function Fraction(bits: uint64): nat { bits % 0x10_0000_0000_0000 }

  function Exponent(bits: uint64): nat { bits / 0x10_0000_0000_0000 % 0x800 }

  predicate Negative(bits: uint64) { bits >= 0x8000_0000_0000_0000 }

  // Not all exponent bits set (IEEE 754, section 3.4).
  predicate FiniteFloat32(bits: uint32) {
    (bits / 0x80_0000) % 0x100 != 0xFF
  }

  predicate FiniteFloat64(bits: uint64) {
    (bits / 0x10_0000_0000_0000) % 0x800 != 0x7FF
  }

  function TwoTo(k: int): (x: real)
    ensures x > 0.0
    decreases if k < 0 then -k else k
  {
    if k == 0 then 1.0 else if k > 0 then 2.0 * TwoTo(k - 1) else TwoTo(k + 1) / 2.0
  }

  // Subnormal numbers have no hidden bit and the exponent of the smallest normal ones.
  function Significand(bits: uint64): nat {
    if Exponent(bits) == 0 then Fraction(bits) else 0x10_0000_0000_0000 + Fraction(bits)
  }

  function Scale(bits: uint64): nat {
    if Exponent(bits) == 0 then 1 else Exponent(bits)
  }

  function Product(significand: nat, scale: int): real {
    significand as real * TwoTo(scale - 1075)
  }

  function Magnitude(bits: uint64): real {
    Product(Significand(bits), Scale(bits))
  }

  function Value(bits: uint64): real {
    if Negative(bits) then -Magnitude(bits) else Magnitude(bits)
  }

  // |x|
  function Abs(x: real): real {
    if x < 0.0 then -x else x
  }

  lemma AbsIsMagnitude(bits: uint64)
    ensures Magnitude(bits) >= 0.0 && Abs(Value(bits)) == Magnitude(bits)
  {
    Nonnegative(Significand(bits) as real, TwoTo(Scale(bits) - 1075));
  }

  lemma Nonnegative(a: real, b: real)
    requires a >= 0.0 && b >= 0.0
    ensures a * b >= 0.0
  {}

  // ---------- Order ----------

  lemma TwoToDoubles(k: int)
    ensures TwoTo(k + 1) == 2.0 * TwoTo(k)
  {}

  lemma {:induction false} TwoToGrows(j: int, k: int)
    requires j < k
    ensures TwoTo(k) >= 2.0 * TwoTo(j)
    decreases k - j
  {
    TwoToDoubles(k - 1);
    if j < k - 1 { TwoToGrows(j, k - 1); }
  }

  // The bits without the sign are the exponent and, below it, the fraction.
  lemma Parts(bits: uint64)
    ensures bits % 0x8000_0000_0000_0000 == Exponent(bits) * 0x10_0000_0000_0000 + Fraction(bits)
    ensures Exponent(bits) < 0x800 && Fraction(bits) < 0x10_0000_0000_0000
  {
    var high := bits / 0x10_0000_0000_0000;
    assert bits == high * 0x10_0000_0000_0000 + Fraction(bits);
    assert high == high / 0x800 * 0x800 + Exponent(bits);
  }

  lemma Scaled(a: real, b: real, x: real)
    requires a < b && x > 0.0
    ensures a * x < b * x
  {
    assert (b - a) * x > 0.0;
  }

  // Twice the scale outweighs any significand.
  lemma HigherScale(a: nat, b: nat, x: real, y: real)
    requires a < 0x20_0000_0000_0000 && 0x10_0000_0000_0000 <= b && x > 0.0 && y >= 2.0 * x
    ensures a as real * x < b as real * y
  {
    Scaled(a as real, 0x20_0000_0000_0000 as real, x);
    Nonnegative(b as real - 0x10_0000_0000_0000 as real, y);
  }

  lemma SignificandBounds(bits: uint64)
    ensures Significand(bits) < 0x20_0000_0000_0000
    ensures Exponent(bits) > 0 ==> Significand(bits) >= 0x10_0000_0000_0000
  {
    Parts(bits);
  }

  lemma PartsGrow(a: uint64, b: uint64)
    requires a % 0x8000_0000_0000_0000 < b % 0x8000_0000_0000_0000
    ensures if Scale(a) == Scale(b) then Significand(a) < Significand(b) else Scale(a) < Scale(b) && Exponent(b) > 0
  {
    Parts(a);
    Parts(b);
  }

  lemma SameScale(a: nat, b: nat, k: int)
    requires a < b
    ensures Product(a, k) < Product(b, k)
  {
    Scaled(a as real, b as real, TwoTo(k - 1075));
  }

  lemma HigherProduct(a: nat, j: int, b: nat, k: int)
    requires a < 0x20_0000_0000_0000 && j < k && b >= 0x10_0000_0000_0000
    ensures Product(a, j) < Product(b, k)
  {
    TwoToGrows(j - 1075, k - 1075);
    HigherScale(a, b, TwoTo(j - 1075), TwoTo(k - 1075));
  }

  lemma MagnitudeGrows(a: uint64, b: uint64)
    requires a % 0x8000_0000_0000_0000 < b % 0x8000_0000_0000_0000
    ensures Magnitude(a) < Magnitude(b)
  {
    PartsGrow(a, b);
    SignificandBounds(a);
    SignificandBounds(b);
    if Scale(a) == Scale(b) {
      SameScale(Significand(a), Significand(b), Scale(a));
    } else {
      HigherProduct(Significand(a), Scale(a), Significand(b), Scale(b));
    }
  }

  lemma SameParts(a: uint64, b: uint64)
    requires a % 0x8000_0000_0000_0000 == b % 0x8000_0000_0000_0000
    ensures Exponent(a) == Exponent(b) && Fraction(a) == Fraction(b)
  {
    Parts(a);
    Parts(b);
  }

  /** Without their sign, the bits of doubles are ordered like their absolute values. */
  lemma BitsOrderMagnitudes(a: uint64, b: uint64)
    ensures a % 0x8000_0000_0000_0000 <= b % 0x8000_0000_0000_0000 <==> Abs(Value(a)) <= Abs(Value(b))
  {
    AbsIsMagnitude(a);
    AbsIsMagnitude(b);
    var x, y := a % 0x8000_0000_0000_0000, b % 0x8000_0000_0000_0000;
    if x < y { MagnitudeGrows(a, b); }
    if x == y { SameParts(a, b); }
    if x > y { MagnitudeGrows(b, a); }
  }

  // ---------- Small whole numbers ----------

  lemma {:induction false} PowersCancel(n: int)
    requires n >= 0
    ensures Pow2(n) as real * TwoTo(-n) == 1.0
    decreases n
  {
    if n > 0 {
      PowersCancel(n - 1);
      TwoToDoubles(-n);
      var p, x := Pow2(n - 1) as real, TwoTo(-n);
      assert Pow2(n) as real == 2.0 * p && TwoTo(-(n - 1)) == 2.0 * x;
      assert 2.0 * p * x == p * (2.0 * x);
    }
  }

  lemma {:induction false} Whole(bits: uint64, k: nat, n: int)
    requires n >= 0 && Exponent(bits) == 1075 - n > 0 && Significand(bits) == k * Pow2(n) && !Negative(bits)
    ensures Value(bits) == k as real
  {
    PowersCancel(n);
    var p, x := Pow2(n) as real, TwoTo(-n);
    assert Significand(bits) as real == k as real * p;
    assert k as real * p * x == k as real * (p * x);
  }

  lemma Pow2At51()
    ensures Pow2(49) == 0x2_0000_0000_0000 && Pow2(51) == 0x8_0000_0000_0000
  {
    Pow2At32();
    assert Pow2(36) == 0x10_0000_0000;
    assert Pow2(40) == 0x100_0000_0000;
    assert Pow2(44) == 0x1000_0000_0000;
    assert Pow2(48) == 0x1_0000_0000_0000;
  }

  lemma {:induction false} Three(bits: uint64)
    requires bits == 0x4008_0000_0000_0000
    ensures Value(bits) == 3.0
  {
    Pow2At51();
    Whole(bits, 3, 51);
  }

  lemma {:induction false} MinusThree(bits: uint64)
    requires bits == 0xC008_0000_0000_0000
    ensures Value(bits) == -3.0
  {
    var three: uint64 := 0x4008_0000_0000_0000;
    Three(three);
    SameParts(bits, three);
  }

  lemma {:induction false} Eight(bits: uint64)
    requires bits == 0x4020_0000_0000_0000
    ensures Value(bits) == 8.0
  {
    Pow2At51();
    Whole(bits, 8, 49);
  }

  lemma {:induction false} TwoToAdds(n: nat, k: int)
    ensures Pow2(n) as real * TwoTo(k) == TwoTo(k + n)
    decreases n
  {
    if n > 0 {
      TwoToAdds(n - 1, k);
      assert TwoTo(k + n) == 2.0 * TwoTo(k + (n - 1)) by { TwoToDoubles(k + (n - 1)); }
      Doubled(Pow2(n - 1), Pow2(n), TwoTo(k));
    }
  }

  lemma Doubled(p: nat, q: nat, x: real)
    requires q == 2 * p
    ensures q as real * x == 2.0 * (p as real * x)
  {
    assert q as real == 2.0 * p as real;
  }

  lemma TwoToMonotone(j: int, k: int)
    requires j <= k
    ensures TwoTo(j) <= TwoTo(k)
  {
    if j < k { TwoToGrows(j, k); }
  }

  lemma Compare(a: nat, p: nat, x: real, y: real)
    requires x > 0.0 && p as real * x == y
    ensures a as real * x < y <==> a < p
  {
    if a < p { Scaled(a as real, p as real, x); }
    if p < a { Scaled(p as real, a as real, x); }
  }

  // A significand of n bits, or of more.
  lemma ProductBounds(a: nat, j: int, n: nat, k: int)
    requires k == j - 1075 + n
    ensures Product(a, j) < TwoTo(k) <==> a < Pow2(n)
  {
    TwoToAdds(n, j - 1075);
    CompareProducts(a, j, Pow2(n), TwoTo(k));
  }

  lemma CompareProducts(a: nat, j: int, p: nat, y: real)
    requires p as real * TwoTo(j - 1075) == y
    ensures Product(a, j) < y <==> a < p
  {
    var x := TwoTo(j - 1075);
    Compare(a, p, x, y);
  }

  lemma Pow2At53()
    ensures Pow2(52) == 0x10_0000_0000_0000 && Pow2(53) == 0x20_0000_0000_0000
  {
    Pow2At51();
  }

  lemma {:induction false} NextToOne(one: uint64, next: uint64, gap: real)
    requires one == 0x3FF0_0000_0000_0000 && next == one + 1 && gap == 1.0 / 0x10_0000_0000_0000 as real
    ensures Value(one) == 1.0 && Value(next) == 1.0 + gap
  {
    Pow2At53();
    Whole(one, 1, 52);
    PowersCancel(52);
    OneMore(Pow2(52), TwoTo(-52), gap);
  }

  lemma OneMore(p: nat, x: real, gap: real)
    requires p > 0 && p as real * x == 1.0 && gap == 1.0 / p as real
    ensures (p + 1) as real * x == 1.0 + gap
  {
    assert (p + 1) as real == p as real + 1.0;
    assert gap * (p as real) == 1.0;
    assert x == x * (gap * p as real) == gap * (p as real * x);
  }

  /** The finite doubles are those below 2^1024 in magnitude. */
  lemma {:induction false} FiniteExactlyWhen(bits: uint64, k: int)
    requires k == 1024
    ensures FiniteFloat64(bits) <==> Abs(Value(bits)) < TwoTo(k)
  {
    AbsIsMagnitude(bits);
    SignificandBounds(bits);
    Parts(bits);
    Pow2At53();
    if Exponent(bits) < 0x7FF {
      ProductBounds(Significand(bits), Scale(bits), 53, Scale(bits) - 1075 + 53);
      TwoToMonotone(Scale(bits) - 1075 + 53, k);
    } else {
      ProductBounds(Significand(bits), Scale(bits), 52, k);
    }
  }

  /** A single is finite when, without its sign, it is below infinity. */
  lemma FiniteSingle(bits: uint32)
    ensures FiniteFloat32(bits) <==> bits % 0x8000_0000 < 0x7F80_0000
  {}

  // ---------- Number(bigint) ----------

  // The distance between doubles near n: 1 below 2^53, then doubling with every further bit.
  function Spacing(n: nat): (s: nat)
    ensures s > 0
  {
    if n < 0x20_0000_0000_0000 then 1 else 2 * Spacing(n / 2)
  }

  // Round to the nearest double, ties to the even significand.
  function NumberOf(n: nat): nat {
    var s := Spacing(n);
    var q, r := n / s, n % s;
    if 2 * r < s || (2 * r == s && q % 2 == 0) then q * s else (q + 1) * s
  }

  /** A timestamp survives Number() exactly when it is a multiple of the spacing of doubles there,
      which covers everything up to 2^53. */
  lemma NumberIsExact(n: nat)
    ensures NumberOf(n) == n <==> n % Spacing(n) == 0
    ensures n <= 0x20_0000_0000_0000 ==> NumberOf(n) == n
  {
    var s := Spacing(n);
    var q, r := n / s, n % s;
    assert n == q * s + r && (q + 1) * s == q * s + s by { Quotient(n, s); }
    if n == 0x20_0000_0000_0000 { assert Spacing(n / 2) == 1; }
  }

  lemma Quotient(n: nat, s: nat)
    requires s > 0
    ensures n == (n / s) * s + n % s && n % s < s && (n / s + 1) * s == (n / s) * s + s
  {}

  // The doubles among the natural numbers: 53 significant bits and zeroes.
  predicate IsDouble(m: nat, significand: nat, zeroes: nat) {
    m == significand * Pow2(zeroes) && significand < 0x20_0000_0000_0000
  }

  function Distance(a: nat, b: nat): nat {
    if a < b then b - a else a - b
  }

  lemma {:induction false} SpacingIsPower(n: nat) returns (j: nat)
    ensures Spacing(n) == Pow2(j) && n < 0x20_0000_0000_0000 * Spacing(n)
    ensures j > 0 ==> n >= 0x10_0000_0000_0000 * Spacing(n)
    decreases n
  {
    j := 0;
    if n >= 0x20_0000_0000_0000 {
      var i := SpacingIsPower(n / 2);
      j := i + 1;
    }
  }

  lemma {:induction false} PowerSplits(i: nat, j: nat)
    requires j <= i
    ensures Pow2(i) == Pow2(i - j) * Pow2(j)
    decreases i
  {
    if j < i { PowerSplits(i - 1, j); }
  }

  // From 52 bits times the spacing on, every double is a multiple of it.
  lemma DoubleIsMultiple(m: nat, k: nat, i: nat, j: nat) returns (x: nat)
    requires IsDouble(m, k, i) && m >= 0x10_0000_0000_0000 * Pow2(j)
    ensures m == x * Pow2(j)
  {
    if i >= j {
      PowerSplits(i, j);
      x := k * Pow2(i - j);
    } else {
      PowerSplits(j, i + 1);
      Smaller(k, Pow2(i), Pow2(j - i - 1));
      assert false;
    }
  }

  lemma Smaller(k: nat, p: nat, q: nat)
    requires k < 0x20_0000_0000_0000 && p > 0 && q > 0
    ensures k * p < 0x10_0000_0000_0000 * (q * (2 * p))
  {
    assert (0x20_0000_0000_0000 - k) * p > 0;
    assert (q - 1) * p >= 0;
    assert q * (2 * p) == 2 * ((q - 1) * p) + 2 * p;
  }

  lemma Steps(a: nat, b: nat, s: nat)
    requires a <= b
    ensures b * s >= a * s && (a < b ==> b * s >= a * s + s)
  {
    assert (b - a) * s >= 0;
    if a < b { assert (b - a - 1) * s >= 0; }
  }

  // y s is the nearer of the two multiples of s around n, and x s any multiple.
  lemma NearestMultiple(n: nat, q: nat, r: nat, y: nat, x: nat, s: nat)
    requires n == q * s + r && r < s
    requires y == if 2 * r < s || (2 * r == s && q % 2 == 0) then q else q + 1
    ensures Distance(y * s, n) <= Distance(x * s, n)
    ensures Distance(y * s, n) == Distance(x * s, n) && x != y ==> y % 2 == 0
  {
    var qs, xs := q * s, x * s;
    assert (q + 1) * s == qs + s;
    if x > q { Steps(q + 1, x, s); }
    if x < q { Steps(x, q, s); }
    Nearer(q, qs, r, s, x, xs);
  }

  lemma Nearer(q: nat, qs: nat, r: nat, s: nat, x: nat, xs: nat)
    requires r < s && (x > q ==> xs >= qs + s) && (x < q ==> xs + s <= qs)
    requires x == q ==> xs == qs
    ensures r <= Distance(xs, qs + r) || s - r <= Distance(xs, qs + r)
  {}

  /** Number() rounds to the nearest double, and between two to the one with the even significand. */
  lemma NumberIsNearest(n: nat, m: nat, k: nat, i: nat) returns (y: nat)
    requires IsDouble(m, k, i)
    ensures NumberOf(n) == y * Spacing(n) && Distance(NumberOf(n), n) <= Distance(m, n)
    ensures Distance(NumberOf(n), n) == Distance(m, n) && m != NumberOf(n) ==> y % 2 == 0
  {
    var j := SpacingIsPower(n);
    var s := Spacing(n);
    var q, r := n / s, n % s;
    Quotient(n, s);
    y := if 2 * r < s || (2 * r == s && q % 2 == 0) then q else q + 1;
    var x := m;
    if j == 0 || m >= 0x10_0000_0000_0000 * s {
      if j > 0 { x := DoubleIsMultiple(m, k, i, j); }
      NearestMultiple(n, q, r, y, x, s);
    } else {
      NearestMultiple(n, q, r, y, 0x10_0000_0000_0000, s);
    }
  }

  lemma QuotientBelow(q: nat, s: nat, limit: nat)
    requires q * s < limit * s
    ensures q < limit
  {
    if q >= limit { Steps(limit, q, s); }
  }

  /** What it rounds to is one. */
  lemma NumberIsDouble(n: nat) returns (k: nat, i: nat)
    ensures IsDouble(NumberOf(n), k, i)
  {
    var s := Spacing(n);
    i := SpacingIsPower(n);
    var q, r := n / s, n % s;
    Quotient(n, s);
    QuotientBelow(q, s, 0x20_0000_0000_0000);
    k := if 2 * r < s || (2 * r == s && q % 2 == 0) then q else q + 1;
    if k == 0x20_0000_0000_0000 {
      k, i := 0x10_0000_0000_0000, i + 1;
    }
  }

  /** The first timestamp that does not survive. */
  lemma NumberLosesOddTimestamps()
    ensures NumberOf(0x20_0000_0000_0001) == 0x20_0000_0000_0000
  {}
}
