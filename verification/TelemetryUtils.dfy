/** The dashboard's sample selection: which samples of a stream are kept for display and charts. */
module TelemetryUtils {
  import opened Modular
  import opened Options
  import opened ServerDecoder

  const STRIDE := 5

  // A sequence number zero after another, or a clock more than a second back.
  predicate StartsNewFlight(previous: Option<TelemetrySample>, current: TelemetrySample) {
    previous.Some? &&
    (|| (current.sequence == 0 && previous.value.sequence != 0)
     || current.timestampUs + 1_000_000 < previous.value.timestampUs)
  }

  // sequence % stride === 0; the remainder of a zero stride is not a number.
  predicate MultipleOf(sequence: nat, stride: int) {
    stride != 0 && sequence % stride == 0
  }

  predicate ShouldRetain(previous: Option<TelemetrySample>, current: TelemetrySample, stride: int) {
    || previous.None? || MultipleOf(current.sequence, stride)
    || current.missionPhase != previous.value.missionPhase
    || current.faultFlags != previous.value.faultFlags || current.missionPhase == Landed
  }

  // Without a stride of its own, the display keeps every fifth sample of a phase with unchanged flags.
  lemma EveryFifthIsKept(previous: TelemetrySample, current: TelemetrySample)
    requires current.missionPhase == previous.missionPhase != Landed && current.faultFlags == previous.faultFlags
    ensures ShouldRetain(Some(previous), current, STRIDE) <==> current.sequence % 5 == 0
  {}

  function LastSample(samples: seq<TelemetrySample>): Option<TelemetrySample> {
    if samples == [] then None else Some(samples[|samples| - 1])
  }

  // The samples that the retention test keeps of the first n.
  function Retained(samples: seq<TelemetrySample>, stride: int, n: nat): (retained: seq<TelemetrySample>)
    requires n <= |samples|
    ensures |retained| <= n
    decreases n
  {
    if n == 0 then []
    else
      var before := Retained(samples, stride, n - 1);
      if ShouldRetain(LastSample(before), samples[n - 1], stride) then before + [samples[n - 1]] else before
  }

  // Where the last of them stands. Samples are objects: whether the newest is among them is a question of
  // where it stands and not of what it holds.
  function Newest(samples: seq<TelemetrySample>, stride: int, n: nat): int
    requires n <= |samples|
    decreases n
  {
    if n == 0 then -1
    else if ShouldRetain(LastSample(Retained(samples, stride, n - 1)), samples[n - 1], stride) then n - 1
    else Newest(samples, stride, n - 1)
  }

  // displaySamples: those, and the newest sample in any case.
  function Shown(samples: seq<TelemetrySample>, stride: int): seq<TelemetrySample>
  {
    var n := |samples|;
    var retained := Retained(samples, stride, n);
    if n > 0 && Newest(samples, stride, n) != n - 1 then retained + [samples[n - 1]] else retained
  }

  method DisplaySamples(samples: seq<TelemetrySample>, stride: int) returns (retained: seq<TelemetrySample>)
    ensures retained == Shown(samples, stride)
  {
    retained := [];
    var newest := -1;
    for i := 0 to |samples|
      invariant retained == Retained(samples, stride, i) && newest == Newest(samples, stride, i)
    {
      if ShouldRetain(LastSample(retained), samples[i], stride) {
        retained := retained + [samples[i]];
        newest := i;
      }
    }
    if samples != [] && newest != |samples| - 1 {
      retained := retained + [samples[|samples| - 1]];
    }
  }

  // Nothing the mission log looks at differs.
  predicate SameStatus(a: TelemetrySample, b: TelemetrySample) {
    a.missionPhase == b.missionPhase && a.faultFlags == b.faultFlags
  }

  /** After any number of samples the last one retained shows the phase and the faults of the last one
      seen. */
  lemma {:induction false} RetainedIsCurrent(samples: seq<TelemetrySample>, stride: int, n: nat)
    requires 0 < n <= |samples|
    ensures var last := LastSample(Retained(samples, stride, n)); last.Some? && SameStatus(last.value, samples[n - 1])
    decreases n
  {
    if n > 1 { RetainedIsCurrent(samples, stride, n - 1); }
  }

  lemma {:induction false} LastIsNewest(samples: seq<TelemetrySample>, stride: int, n: nat)
    requires n <= |samples|
    ensures var last, k := LastSample(Retained(samples, stride, n)), Newest(samples, stride, n);
      -1 <= k < n && if k == -1 then last == None else last == Some(samples[k])
    decreases n
  {
    if n > 0 { LastIsNewest(samples, stride, n - 1); }
  }

  /** Display ends with the newest sample. */
  lemma ShownEndsWithNewest(samples: seq<TelemetrySample>, stride: int)
    ensures LastSample(Shown(samples, stride)) == LastSample(samples)
  {
    LastIsNewest(samples, stride, |samples|);
  }

  // Whether a sample stands out from the one before it: the first, a multiple of the stride, after landing,
  // or a change of phase or faults.
  predicate StandsOut(samples: seq<TelemetrySample>, stride: int, j: nat)
    requires j < |samples|
  {
    || j == 0 || MultipleOf(samples[j].sequence, stride) || samples[j].missionPhase == Landed
    || !SameStatus(samples[j - 1], samples[j])
  }

  function Outstanding(samples: seq<TelemetrySample>, stride: int, n: nat): seq<TelemetrySample>
    requires n <= |samples|
    decreases n
  {
    if n == 0 then []
    else Outstanding(samples, stride, n - 1) + if StandsOut(samples, stride, n - 1) then [samples[n - 1]] else []
  }

  // Where the last of them before the n-th stands.
  function LastOutstanding(samples: seq<TelemetrySample>, stride: int, n: nat): (k: nat)
    requires 0 < n <= |samples|
    ensures k < n && StandsOut(samples, stride, k) && forall j :: k < j < n ==> !StandsOut(samples, stride, j)
    decreases n
  {
    if StandsOut(samples, stride, n - 1) then n - 1 else LastOutstanding(samples, stride, n - 1)
  }

  /** The retention test, which compares with the last sample it retained, retains a sample exactly when it
      stands out from the sample just before it. */
  lemma {:induction false} RetainedAreOutstanding(samples: seq<TelemetrySample>, stride: int, n: nat)
    requires n <= |samples|
    ensures Retained(samples, stride, n) == Outstanding(samples, stride, n)
    ensures n > 0 ==> Newest(samples, stride, n) == LastOutstanding(samples, stride, n)
    decreases n
  {
    if n > 0 {
      RetainedAreOutstanding(samples, stride, n - 1);
      if n > 1 { RetainedIsCurrent(samples, stride, n - 1); }
    }
  }

  /** Display shows exactly the samples that stand out, in order, and the newest in any case. */
  lemma ShownExactly(samples: seq<TelemetrySample>, stride: int)
    ensures var n := |samples|;
      Shown(samples, stride) == Outstanding(samples, stride, n)
        + if n > 0 && !StandsOut(samples, stride, n - 1) then [samples[n - 1]] else []
  {
    RetainedAreOutstanding(samples, stride, |samples|);
  }

  // ---------- chartSamples ----------

  // ceil(length / maximum): infinite for a maximum of zero; the sign of a negative one does not matter to
  // the remainder.
  datatype ChartStride = Infinite | Every(n: nat)

  function StrideFor(length: nat, maximum: int): ChartStride {
    if maximum == 0 then Infinite
    else if maximum > 0 then Every(CeilingQuotient(length, maximum))
    else Every(length / -maximum)
  }

  // index % stride === 0
  predicate Charted(stride: ChartStride, index: nat) {
    match stride
    case Infinite => index == 0
    case Every(n) => n > 0 && index % n == 0
  }

  // The charted samples among the first n.
  function EveryNth(samples: seq<TelemetrySample>, stride: ChartStride, n: nat): seq<TelemetrySample>
    requires n <= |samples|
    decreases n
  {
    if n == 0 then []
    else EveryNth(samples, stride, n - 1) + if Charted(stride, n - 1) then [samples[n - 1]] else []
  }

  lemma MultipleAt(n: nat, stride: nat, k: nat)
    requires stride > 0 && k > 0 && (k - 1) * stride < n <= k * stride
    ensures n % stride == 0 <==> n == k * stride
    ensures n < k * stride ==> n + 1 <= k * stride
    ensures k * stride < k * stride + 1 <= (k + 1) * stride
  {
    assert k * stride == stride * k && (k - 1) * stride == stride * (k - 1) && (k + 1) * stride == k * stride + stride;
    assert stride * k == stride * (k - 1) + stride;
    if n < k * stride { QuotientIs(n, stride, k - 1, n - stride * (k - 1)); } else { QuotientIs(n, stride, k, 0); }
  }

  lemma {:induction false} EveryNthLength(samples: seq<TelemetrySample>, stride: nat, n: nat)
    requires stride > 0 && 0 < n <= |samples|
    ensures var k := |EveryNth(samples, Every(stride), n)|; k > 0 && (k - 1) * stride < n <= k * stride
    decreases n
  {
    if n == 1 {
      QuotientIs(0, stride, 0, 0);
      assert EveryNth(samples, Every(stride), 0) == [];
    } else {
      EveryNthLength(samples, stride, n - 1);
      MultipleAt(n - 1, stride, |EveryNth(samples, Every(stride), n - 1)|);
    }
  }

  // A stride of ceil(length / maximum) keeps at most maximum samples.
  lemma AtMostMaximum(length: nat, maximum: nat, stride: nat, k: nat)
    requires maximum > 0 && k > 0 && (k - 1) * stride < length && length <= stride * maximum
    ensures k <= maximum
  {}

  function CeilingQuotient(a: nat, b: nat): (q: nat)
    requires b > 0
    ensures a <= q * b && (a > 0 ==> q > 0)
  {
    assert a == b * (a / b) + a % b && (a / b + 1) * b == b * (a / b) + b;
    if a % b == 0 then a / b else a / b + 1
  }

  lemma ChartLength(samples: seq<TelemetrySample>, maximum: nat)
    requires 0 < maximum < |samples|
    ensures |EveryNth(samples, StrideFor(|samples|, maximum), |samples|)| <= maximum
  {
    var stride := CeilingQuotient(|samples|, maximum);
    EveryNthLength(samples, stride, |samples|);
    AtMostMaximum(|samples|, maximum, stride, |EveryNth(samples, Every(stride), |samples|)|);
  }

  /** A chart shows every sample of a short stream, and of a long one every stride-th and the newest: never
      more than one above a positive maximum. */
  method ChartSamples(samples: seq<TelemetrySample>, maximum: int) returns (result: seq<TelemetrySample>)
    ensures |samples| <= maximum ==> result == samples
    ensures |samples| > maximum ==> var n, stride := |samples|, StrideFor(|samples|, maximum);
      result == EveryNth(samples, stride, n) + if n > 0 && !Charted(stride, n - 1) then [samples[n - 1]] else []
    ensures maximum > 0 ==> |result| <= maximum + 1
    ensures LastSample(result) == LastSample(samples)
  {
    if |samples| <= maximum { return samples; }
    var stride := StrideFor(|samples|, maximum);
    result := [];
    var newest := -1;
    for index := 0 to |samples|
      invariant result == EveryNth(samples, stride, index)
      invariant if newest == -1 then result == []
                else 0 <= newest < index && LastSample(result) == Some(samples[newest])
      invariant index > 0 ==> (newest == index - 1 <==> Charted(stride, index - 1))
    {
      if Charted(stride, index) {
        result := result + [samples[index]];
        newest := index;
      }
    }
    if maximum > 0 { ChartLength(samples, maximum); }
    if samples != [] && newest != |samples| - 1 {
      result := result + [samples[|samples| - 1]];
    }
  }
}
