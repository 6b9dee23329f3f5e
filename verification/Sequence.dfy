/** Loss accounting over 32-bit sequence numbers that may wrap around (compare RFC 1982, section 3.2). */
module Sequence {
  import opened Binary
  import opened Options

  const MODULUS := 0x1_0000_0000
  const HALF := 0x8000_0000

  datatype Tracking = Tracking(latest: Option<uint32>, lost: nat, reordered: nat)

  const FRESH := Tracking(None, 0, 0)

  // (sequence - latest) >>> 0
  function Delta(sequence: uint32, latest: uint32): uint32 {
    (sequence - latest) % MODULUS
  }

  function Observed(t: Tracking, sequence: uint32): Tracking {
    match t.latest
    case None => t.(latest := Some(sequence))
    case Some(latest) =>
      var delta := Delta(sequence, latest);
      if delta == 0 || delta >= HALF then t.(reordered := t.reordered + 1)
      else t.(latest := Some(sequence), lost := t.lost + delta - 1)
  }

  // The first n of the sequence numbers observed by a fresh tracker.
  function Tracked(sequences: seq<uint32>, n: nat): Tracking
    requires n <= |sequences|
    decreases n
  {
    if n == 0 then FRESH else Observed(Tracked(sequences, n - 1), sequences[n - 1])
  }

  lemma {:induction false} TrackedPrefix(a: seq<uint32>, b: seq<uint32>, n: nat)
    requires n <= |a| && n <= |b| && forall k :: 0 <= k < n ==> a[k] == b[k]
    ensures Tracked(a, n) == Tracked(b, n)
    decreases n
  {
    if n > 0 { TrackedPrefix(a, b, n - 1); }
  }

  lemma TrackedExtended(sequences: seq<uint32>, sequence: uint32)
    ensures Tracked(sequences + [sequence], |sequences| + 1) == Observed(Tracked(sequences, |sequences|), sequence)
  {
    TrackedPrefix(sequences + [sequence], sequences, |sequences|);
  }

  class SequenceTracker {
    var latest: Option<uint32>
    var lost: nat
    var reordered: nat

    ghost function Value(): Tracking
      reads this
    {
      Tracking(latest, lost, reordered)
    }

    constructor ()
      ensures Value() == FRESH
    {
      latest, lost, reordered := None, 0, 0;
    }

    method Reset()
      modifies this
      ensures Value() == FRESH
    {
      latest := None;
      lost := 0;
      reordered := 0;
    }

    method Observe(sequence: uint32)
      modifies this
      ensures Value() == Observed(old(Value()), sequence)
    {
      if latest == None {
        latest := Some(sequence);
        return;
      }
      var delta := Delta(sequence, latest.value);
      if 1 < delta < HALF { lost := lost + delta - 1; }
      if delta == 0 || delta >= HALF { reordered := reordered + 1; }
      if 0 < delta < HALF { latest := Some(sequence); }
    }
  }

  // ---------- Unwrapping ----------

  // The integer with the given low 32 bits that is nearest to u (the lower one of two).
  function Lift(u: int, sequence: uint32): (x: int)
    ensures x % MODULUS == sequence && u - HALF <= x < u + HALF
  {
    u + (sequence - u + HALF) % MODULUS - HALF
  }

  /** Lift is the only number in its window with those low bits. */
  lemma LiftIsNearest(u: int, sequence: uint32, x: int)
    requires x % MODULUS == sequence && u - HALF <= x < u + HALF
    ensures x == Lift(u, sequence)
  {}

  // The highest sequence number so far, unwrapped.
  function Unwrapped(sequences: seq<uint32>, n: nat): int
    requires 1 <= n <= |sequences|
    decreases n
  {
    if n == 1 then sequences[0]
    else
      var u := Unwrapped(sequences, n - 1);
      var x := Lift(u, sequences[n - 1]);
      if x > u then x else u
  }

  lemma ModPlusMultiple(a: int, k: int)
    ensures (a + MODULUS * k) % MODULUS == a % MODULUS
  {}

  lemma ModPlusHalf(a: int)
    ensures (a + HALF) % MODULUS == if a % MODULUS < HALF then a % MODULUS + HALF else a % MODULUS - HALF
  {}

  // The distance the code computes from the low bits is that of the unwrapped numbers.
  lemma DeltaOfLowBits(u: int, sequence: uint32, delta: int)
    requires delta == Delta(sequence, u % MODULUS)
    ensures delta == (sequence - u) % MODULUS
  {
    ModPlusMultiple(sequence - u, u / MODULUS);
  }

  lemma DeltaIsDistance(u: int, sequence: uint32)
    ensures var x, delta := Lift(u, sequence), Delta(sequence, u % MODULUS);
      if x > u then delta == x - u && 0 < delta < HALF else delta == 0 || delta >= HALF
  {
    DeltaOfLowBits(u, sequence, Delta(sequence, u % MODULUS));
    ModPlusHalf(sequence - u);
  }

  /** For every input, wraparound included: what was lost and what was observed make up the span of the
      unwrapped numbers, except that each reordered packet lies inside it or repeats one. */
  lemma {:induction false} LossAccounting(sequences: seq<uint32>, n: nat)
    requires 1 <= n <= |sequences|
    ensures var t, u := Tracked(sequences, n), Unwrapped(sequences, n);
      && t.latest == Some(u % MODULUS)
      && t.lost + n == u - sequences[0] + 1 + t.reordered
    decreases n
  {
    if n == 1 {
      assert Tracked(sequences, 0) == FRESH;
    } else {
      LossAccounting(sequences, n - 1);
      DeltaIsDistance(Unwrapped(sequences, n - 1), sequences[n - 1]);
    }
  }

  // ---------- Distinct numbers inside half the range, in any order ----------

  // sequences are the low bits of base + offsets.
  ghost predicate InWindow(sequences: seq<uint32>, base: int, offsets: seq<nat>) {
    && |offsets| == |sequences|
    && forall i :: 0 <= i < |sequences| ==> offsets[i] < HALF && sequences[i] == (base + offsets[i]) % MODULUS
  }

  function Maximum(offsets: seq<nat>, n: nat): (m: nat)
    requires 1 <= n <= |offsets|
    ensures forall i :: 0 <= i < n ==> offsets[i] <= m
    ensures exists i :: 0 <= i < n && offsets[i] == m
    decreases n
  {
    if n == 1 then offsets[0]
    else
      var m := Maximum(offsets, n - 1);
      if offsets[n - 1] > m then offsets[n - 1] else m
  }

  lemma LiftInWindow(first: uint32, base: int, o: nat, m: nat, p: nat, sequence: uint32)
    requires o < HALF && m < HALF && p < HALF && sequence == (base + p) % MODULUS
    requires first == (base + o) % MODULUS
    ensures Lift(first + m - o, sequence) == first + p - o
  {}

  /** Numbers from a window of 2^31 are unwrapped exactly, in whatever order they arrive. */
  lemma {:induction false} WindowIsUnwrapped(sequences: seq<uint32>, base: int, offsets: seq<nat>, n: nat)
    requires 1 <= n <= |sequences| && InWindow(sequences, base, offsets)
    ensures Unwrapped(sequences, n) == sequences[0] + Maximum(offsets, n) - offsets[0]
    decreases n
  {
    if n > 1 {
      WindowIsUnwrapped(sequences, base, offsets, n - 1);
      LiftInWindow(sequences[0], base, offsets[0], Maximum(offsets, n - 1), offsets[n - 1], sequences[n - 1]);
    }
  }

  function Between(lo: nat, hi: nat): (s: set<nat>)
    requires lo <= hi + 1
    ensures forall x :: x in s <==> lo <= x <= hi
    ensures |s| == hi + 1 - lo
    decreases hi + 1 - lo
  {
    if lo > hi then {} else Between(lo + 1, hi) + {lo}
  }

  ghost predicate Distinct(offsets: seq<nat>) {
    forall i, j :: 0 <= i < j < |offsets| ==> offsets[i] != offsets[j]
  }

  function Delivered(offsets: seq<nat>): set<nat> {
    set i | 0 <= i < |offsets| :: offsets[i]
  }

  lemma {:induction false} DeliveredSize(offsets: seq<nat>)
    requires Distinct(offsets)
    ensures |Delivered(offsets)| == |offsets|
    decreases |offsets|
  {
    if offsets != [] {
      var n := |offsets| - 1;
      var rest := offsets[..n];
      DeliveredSize(rest);
      forall x | x in Delivered(rest) ensures x != offsets[n] {
        var i :| 0 <= i < n && rest[i] == x;
      }
      WithLast(offsets);
    }
  }

  lemma WithLast(offsets: seq<nat>)
    requires offsets != []
    ensures Delivered(offsets) == Delivered(offsets[..|offsets| - 1]) + {offsets[|offsets| - 1]}
  {}

  // The numbers of the window from the first to the highest that never arrived.
  function Missing(offsets: seq<nat>): set<nat>
    requires offsets != [] && offsets[0] <= Maximum(offsets, |offsets|)
  {
    Between(offsets[0], Maximum(offsets, |offsets|)) - Delivered(offsets)
  }

  /** For numbers from a window of 2^31, in any order, latest is the highest of them. */
  lemma LatestIsHighest(sequences: seq<uint32>, base: int, offsets: seq<nat>)
    requires sequences != [] && InWindow(sequences, base, offsets)
    ensures Tracked(sequences, |sequences|).latest == Some((base + Maximum(offsets, |offsets|)) % MODULUS)
  {
    var n := |sequences|;
    LossAccounting(sequences, n);
    WindowIsUnwrapped(sequences, base, offsets, n);
    SameLowBits(sequences[0], base, offsets[0], Maximum(offsets, n));
  }

  /** For distinct numbers from a window of 2^31 of which the lowest came first, the others in any order,
      lost minus reordered is exactly how many never arrived. */
  lemma LostMinusReordered(sequences: seq<uint32>, base: int, offsets: seq<nat>)
    requires sequences != [] && InWindow(sequences, base, offsets) && Distinct(offsets)
    requires forall i :: 0 <= i < |offsets| ==> offsets[0] <= offsets[i]
    ensures var t := Tracked(sequences, |sequences|); t.lost - t.reordered == |Missing(offsets)|
  {
    LossAccounting(sequences, |sequences|);
    WindowIsUnwrapped(sequences, base, offsets, |sequences|);
    MissingSize(offsets);
  }

  lemma SameLowBits(first: uint32, base: int, o: nat, m: nat)
    requires first == (base + o) % MODULUS
    ensures (first + m - o) % MODULUS == (base + m) % MODULUS
  {}

  lemma MissingSize(offsets: seq<nat>)
    requires offsets != [] && Distinct(offsets) && forall i :: 0 <= i < |offsets| ==> offsets[0] <= offsets[i]
    ensures |Missing(offsets)| == Maximum(offsets, |offsets|) - offsets[0] + 1 - |offsets|
  {
    DeliveredSize(offsets);
    assert Delivered(offsets) <= Between(offsets[0], Maximum(offsets, |offsets|));
  }
}
