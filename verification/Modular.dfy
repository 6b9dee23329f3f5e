/** Indices that wrap around at a capacity, as those of a ring do: when a remainder is zero, how remainders
    of neighbouring numbers differ, that numbers less than a capacity apart differ in theirs, and what the
    distance of two counters that never wrap says about a ring that is full or empty. */
module Modular {

  lemma Multiple(n: nat, k: int)
    requires k >= 1
    ensures n * k >= n
  {}

  lemma QuotientIs(a: nat, n: nat, q: nat, r: nat)
    requires n > 0 && a == n * q + r && r < n
    ensures a % n == r
  {
    var k := a / n - q;
    var j := -k;
    assert a == n * (a / n) + a % n;
    assert n * k == n * (a / n) - n * q && n * j == -(n * k);
    if k >= 1 { Multiple(n, k); }
    if j >= 1 { Multiple(n, j); }
  }

  lemma ModPlus(a: nat, d: nat, n: nat)
    requires n > 0 && d <= n
    ensures (a + d) % n == if a % n + d < n then a % n + d else a % n + d - n
  {
    var q, r := a / n, a % n;
    assert a == n * q + r;
    if r + d < n {
      QuotientIs(a + d, n, q, r + d);
    } else {
      assert n * (q + 1) == n * q + n;
      QuotientIs(a + d, n, q + 1, r + d - n);
    }
  }

  lemma ModDiffers(a: nat, b: nat, n: nat)
    requires a < b < a + n
    ensures a % n != b % n
  {
    ModPlus(a, b - a, n);
  }

  lemma Wraps(index: nat, n: nat)
    requires index < n
    ensures (index + 1) % n == if index + 1 < n then index + 1 else 0
  {}

  lemma ModNext(a: nat, n: nat)
    requires n > 0
    ensures (a % n + 1) % n == (a + 1) % n
  {
    if n == 1 {
    } else {
      ModPlus(a, 1, n);
      Wraps(a % n, n);
    }
  }

  // Two counters less than n apart agree modulo n only when equal, and the one that is n - 1 ahead is the
  // one whose successor meets the other.
  lemma FullOrEmpty(popped: nat, pushed: nat, n: nat)
    requires n > 1 && popped <= pushed <= popped + n - 1
    ensures (popped % n == pushed % n) == (popped == pushed)
    ensures ((pushed % n + 1) % n == popped % n) == (pushed == popped + n - 1)
  {
    ModNext(pushed, n);
    if popped < pushed { ModDiffers(popped, pushed, n); }
    if pushed < popped + n - 1 {
      ModDiffers(popped, pushed + 1, n);
    } else {
      ModPlus(popped, n, n);
    }
  }
}
