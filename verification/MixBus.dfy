/**
 The summing bus: inputs are added sample by sample with saturation and limited.  For up to 65535
 inputs the result does not depend on their order.
 */
module MixBus {
  import opened Frames
  import opened Pcm
  import opened Sequences
  import opened Wrappers

  const SAMPLES_PER_FRAME := FRAME_BYTES / 2
  const KNEE := 29_491
  const I32_MIN := -0x8000_0000
  const I32_MAX := 0x7FFF_FFFF

  type I32 = x: int | I32_MIN <= x <= I32_MAX

  function SatAdd(a: I32, b: I32): I32 {
    if a + b < I32_MIN then I32_MIN else if a + b > I32_MAX then I32_MAX else a + b
  }

  /** The sum is exact within 32 bits, and beyond them the bound on its own side. */
  lemma SaturatesAtEnds(a: I32, b: I32)
    ensures SatAdd(a, b) == I32_MAX <==> a + b >= I32_MAX
    ensures SatAdd(a, b) == I32_MIN <==> a + b <= I32_MIN
    ensures I32_MIN <= a + b <= I32_MAX ==> SatAdd(a, b) == a + b
  {
  }

  // ----- the limiter

  /** 32-bit values wrap around at the smallest one, which has no positive counterpart. */
  function Negated(x: I32): I32 {
    if x == I32_MIN then I32_MIN else -x
  }

  function SoftClip(sample: I32): Sample {
    var abs := if sample >= 0 then sample else Negated(sample);
    var limited := if abs <= KNEE then abs else KNEE + (abs - KNEE) / 4;
    var capped: I32 := if limited > 32_767 then 32_767 else limited;
    Clamp(if sample >= 0 then capped else Negated(capped), -32_768, 32_767)
  }

  /**
   The limiter is monotone, never louder, and the identity exactly up to its knee.  It is odd, within the
   symmetric sample range, exactly for sums other than the smallest 32-bit one.
   */
  lemma SoftClipShape(x: I32, y: I32)
    ensures x <= y ==> SoftClip(x) <= SoftClip(y)
    ensures SoftClip(x) == x <==> -KNEE <= x <= KNEE
    ensures (0 <= x ==> 0 <= SoftClip(x) <= x) && (x <= 0 ==> x <= SoftClip(x) <= 0)
    ensures -32_767 <= SoftClip(x) <= 32_767 <==> x != I32_MIN
    ensures SoftClip(Negated(x)) as int == -(SoftClip(x) as int) <==> x != I32_MIN
    ensures SoftClip(I32_MIN) == -32_768
  {
  }

  /** Above the knee four units of the sum are one of the output, until the largest sample is reached at 42595. */
  lemma SoftClipSlope(x: I32)
    requires KNEE <= x
    ensures x + 4 <= 42_598 ==> SoftClip(x + 4) == SoftClip(x) + 1
    ensures SoftClip(x) == 32_767 <==> x >= 42_595
  {
  }

  // ----- the sum

  /** The saturating sum of the `i`-th samples, in input order; ill-sized inputs are silence. */
  function Accumulated(inputs: seq<seq<Byte>>, i: nat): I32
    requires i < SAMPLES_PER_FRAME
  {
    if inputs == [] then 0
    else
      var n := |inputs| - 1;
      SatAdd(Accumulated(inputs[..n], i), Contribution(inputs[n], i))
  }

  function Contribution(input: seq<Byte>, i: nat): Sample
    requires i < SAMPLES_PER_FRAME
  {
    if |input| == FRAME_BYTES then SampleAt(input, i) else 0
  }

  function MixedSamples(inputs: seq<seq<Byte>>): (samples: seq<Sample>)
    ensures |samples| == SAMPLES_PER_FRAME
  {
    seq(SAMPLES_PER_FRAME, i requires 0 <= i < SAMPLES_PER_FRAME => SoftClip(Accumulated(inputs, i)))
  }

  function Mixed(inputs: seq<seq<Byte>>): seq<Byte> {
    Encode(MixedSamples(inputs))
  }

  /** The exact sum of the `i`-th samples. */
  function Total(inputs: seq<seq<Byte>>, i: nat): int
    requires i < SAMPLES_PER_FRAME
  {
    if inputs == [] then 0
    else Total(inputs[..|inputs| - 1], i) + Contribution(inputs[|inputs| - 1], i)
  }

  lemma {:induction false} NeverSaturates(inputs: seq<seq<Byte>>, i: nat)
    requires i < SAMPLES_PER_FRAME && |inputs| <= 65_535
    ensures Accumulated(inputs, i) == Total(inputs, i)
    ensures -32_768 * |inputs| <= Total(inputs, i) <= 32_767 * |inputs|
  {
    if inputs != [] {
      NeverSaturates(inputs[..|inputs| - 1], i);
    }
  }

  /** So up to 65535 inputs never add up to the one sum the limiter treats differently. */
  lemma LimitedSymmetrically(inputs: seq<seq<Byte>>, i: nat)
    requires i < SAMPLES_PER_FRAME && |inputs| <= 65_535
    ensures -32_767 <= MixedSamples(inputs)[i] <= 32_767
    ensures MixedSamples(inputs)[i] == Total(inputs, i) <==> -KNEE <= Total(inputs, i) <= KNEE
  {
    NeverSaturates(inputs, i);
    SoftClipShape(Accumulated(inputs, i), 0);
  }

  lemma {:induction false} TotalWithout(inputs: seq<seq<Byte>>, i: nat, k: nat)
    requires i < SAMPLES_PER_FRAME && k < |inputs|
    ensures Total(inputs, i) == Total(Without(inputs, k), i) + Contribution(inputs[k], i)
  {
    var n := |inputs| - 1;
    if k == n {
      assert Without(inputs, k) == inputs[..n];
    } else {
      TotalWithout(inputs[..n], i, k);
      assert Without(inputs, k)[..n - 1] == Without(inputs[..n], k);
    }
  }

  lemma {:induction false} TotalOfPermutation(a: seq<seq<Byte>>, b: seq<seq<Byte>>, i: nat)
    requires i < SAMPLES_PER_FRAME && multiset(a) == multiset(b)
    ensures Total(a, i) == Total(b, i)
  {
    if a == [] {
      assert |multiset(b)| == 0;
    } else {
      var k := FindInPermutation(a, b);
      TotalWithout(b, i, k);
      TotalOfPermutation(a[..|a| - 1], Without(b, k), i);
    }
  }

  /** The mix depends only on which frames are mixed, not on their order. */
  lemma MixIgnoresOrder(a: seq<seq<Byte>>, b: seq<seq<Byte>>)
    requires multiset(a) == multiset(b) && |a| <= 65_535
    ensures Mixed(a) == Mixed(b)
  {
    assert |multiset(a)| == |multiset(b)|;
    forall i | 0 <= i < SAMPLES_PER_FRAME ensures MixedSamples(a)[i] == MixedSamples(b)[i] {
      NeverSaturates(a, i);
      NeverSaturates(b, i);
      TotalOfPermutation(a, b, i);
    }
    assert MixedSamples(a) == MixedSamples(b);
  }

  /** An ill-sized input changes nothing. */
  lemma IllSizedIsSilence(inputs: seq<seq<Byte>>, input: seq<Byte>)
    requires |input| != FRAME_BYTES
    ensures Mixed(inputs + [input]) == Mixed(inputs)
  {
    var all := inputs + [input];
    assert all[..|inputs|] == inputs;
    forall i | 0 <= i < SAMPLES_PER_FRAME ensures MixedSamples(all)[i] == MixedSamples(inputs)[i] {
      assert Accumulated(all, i) == SatAdd(Accumulated(inputs, i), 0);
    }
    assert MixedSamples(all) == MixedSamples(inputs);
  }

  /** A single input that stays within the knee comes out as it is. */
  lemma QuietInputPasses(input: seq<Byte>)
    requires |input| == FRAME_BYTES
    requires forall i | 0 <= i < SAMPLES_PER_FRAME :: -KNEE <= SampleAt(input, i) <= KNEE
    ensures Decode(Mixed([input])) == Decode(input)
  {
    EncodedSamples(MixedSamples([input]));
    assert [input][..0] == [];
    forall i | 0 <= i < SAMPLES_PER_FRAME ensures MixedSamples([input])[i] == SampleAt(input, i) {
      assert Accumulated([input], i) == SatAdd(Accumulated([input][..0], i), SampleAt(input, i)) == SampleAt(input, i);
      SoftClipShape(SampleAt(input, i), 0);
    }
    assert MixedSamples([input]) == Decode(input);
  }

  lemma NothingMixedIsSilence()
    ensures Mixed([]) == seq(FRAME_BYTES, _ => 0)
  {
    var samples := MixedSamples([]);
    forall i | 0 <= i < SAMPLES_PER_FRAME ensures samples[i] == 0 {
    }
    ZerosEncoded(samples);
  }

  lemma {:induction false} ZerosEncoded(samples: seq<Sample>)
    requires forall i | 0 <= i < |samples| :: samples[i] == 0
    ensures Encode(samples) == seq(2 * |samples|, _ => 0)
  {
    if samples != [] {
      ZerosEncoded(samples[..|samples| - 1]);
      assert ToLe(0) == [0, 0];
    }
  }

  // ----- in place

  method Mix(inputs: seq<seq<Byte>>) returns (pcm: seq<Byte>)
    ensures pcm == Mixed(inputs) && |pcm| == FRAME_BYTES
  {
    var accum := new I32[SAMPLES_PER_FRAME](_ => 0);
    for k := 0 to |inputs|
      invariant Holds(accum, inputs[..k])
    {
      assert inputs[..k + 1][..k] == inputs[..k];
      AddInput(accum, inputs[..k + 1]);
    }
    assert inputs[..|inputs|] == inputs;
    pcm := Limit(accum, inputs);
  }

  ghost predicate Holds(accum: array<I32>, inputs: seq<seq<Byte>>)
    reads accum
  {
    accum.Length == SAMPLES_PER_FRAME && forall i | 0 <= i < SAMPLES_PER_FRAME :: accum[i] == Accumulated(inputs, i)
  }

  /** Adds the last of `inputs` to the sum of the others. */
  method AddInput(accum: array<I32>, inputs: seq<seq<Byte>>)
    requires inputs != [] && Holds(accum, inputs[..|inputs| - 1])
    modifies accum
    ensures Holds(accum, inputs)
  {
    var n := |inputs| - 1;
    var input := inputs[n];
    if |input| != FRAME_BYTES {
      return;
    }
    for i := 0 to SAMPLES_PER_FRAME
      invariant forall j | 0 <= j < i :: accum[j] == Accumulated(inputs, j)
      invariant forall j | i <= j < SAMPLES_PER_FRAME :: accum[j] == Accumulated(inputs[..n], j)
    {
      accum[i] := SatAdd(accum[i], SampleAt(input, i));
    }
  }

  method Limit(accum: array<I32>, ghost inputs: seq<seq<Byte>>) returns (pcm: seq<Byte>)
    requires Holds(accum, inputs)
    ensures pcm == Mixed(inputs) && |pcm| == FRAME_BYTES
  {
    pcm := [];
    ghost var samples := MixedSamples(inputs);
    for i := 0 to SAMPLES_PER_FRAME
      invariant pcm == Encode(samples[..i]) && |pcm| == 2 * i
    {
      EncodeMore(samples, i);
      assert samples[i] == SoftClip(accum[i]);
      pcm := pcm + ToLe(SoftClip(accum[i]));
    }
    assert samples[..SAMPLES_PER_FRAME] == samples;
  }
}
