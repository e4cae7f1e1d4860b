/**
 Streaming linear resampling of mono samples to 48 kHz stereo.  The closed form says what output
 frame k is, reading the whole input at random; the class produces it from any cutting of the input
 bytes, with one previous sample, one phase and one odd byte as its only memory.
 */
module Resampler {
  import opened Wrappers
  import opened Frames
  import opened Pcm
  import opened Sequences

  const OUT_RATE := 48_000
  const MIN_RATE := 8_000

  predicate Supported(rate: int) {
    MIN_RATE <= rate <= OUT_RATE
  }

  /** Integer division as the source's language rounds it, towards zero. */
  function TruncDiv(a: int, b: int): int
    requires b > 0
  {
    if a >= 0 then a / b else -(-a / b)
  }

  lemma ProductBounds(d: int, pos: nat)
    requires d >= 0 && pos <= OUT_RATE
    ensures 0 <= d * pos <= d * OUT_RATE
  {
  }

  lemma LerpBounds(a: int, b: int, pos: nat)
    requires pos <= OUT_RATE
    ensures a <= b ==> a <= a + TruncDiv((b - a) * pos, OUT_RATE) <= b
    ensures b <= a ==> b <= a + TruncDiv((b - a) * pos, OUT_RATE) <= a
  {
    if a <= b {
      ProductBounds(b - a, pos);
    } else {
      ProductBounds(a - b, pos);
      assert (b - a) * pos == -((a - b) * pos);
    }
  }

  /** Interpolation between two neighbours: always between them, so narrowing to a sample never wraps. */
  function Lerp(a: Sample, b: Sample, pos: nat): (s: Sample)
    requires pos < OUT_RATE
    ensures a <= b ==> a <= s <= b
    ensures b <= a ==> b <= s <= a
  {
    LerpBounds(a, b, pos);
    a + TruncDiv((b - a) * pos, OUT_RATE)
  }

  lemma LerpMonotone(a: Sample, b: Sample, p: nat, q: nat)
    requires a <= b && p <= q < OUT_RATE
    ensures Lerp(a, b, p) <= Lerp(a, b, q)
  {
    assert (b - a) * q == (b - a) * p + (b - a) * (q - p);
    assert (b - a) * (q - p) >= 0 && (b - a) * p >= 0;
  }

  // ----- the closed form

  /** Source sample left of output frame `k`. */
  function Left(rate: nat, k: nat): nat {
    k * rate / OUT_RATE
  }

  function Phase(rate: nat, k: nat): (p: nat)
    ensures p < OUT_RATE
  {
    k * rate % OUT_RATE
  }

  /** Output frame `k`: between samples `Left` and the next, the last sample held. */
  function OutputAt(s: seq<Sample>, rate: nat, k: nat): Sample
    requires s != []
  {
    var i := Left(rate, k);
    if i + 1 < |s| then Lerp(s[i], s[i + 1], Phase(rate, k)) else s[|s| - 1]
  }

  function Outputs(s: seq<Sample>, rate: nat, count: nat): (out: seq<Sample>)
    requires s != [] || count == 0
    ensures |out| == count && forall k | 0 <= k < count :: out[k] == OutputAt(s, rate, k)
  {
    seq(count, k requires 0 <= k < count => OutputAt(s, rate, k))
  }

  /** `x / r`, rounded up: how many steps of `r` it takes to reach `x`. */
  function CeilDiv(x: nat, r: nat): nat
    requires r > 0
  {
    if x == 0 then 0 else if x <= r then 1 else 1 + CeilDiv(x - r, r)
  }

  /** Frames that `n` samples determine before the end of the input is known. */
  function Determined(n: nat, rate: nat): nat
    requires rate > 0
  {
    if n == 0 then 0 else CeilDiv((n - 1) * OUT_RATE, rate)
  }

  function Streamed(s: seq<Sample>, rate: nat): seq<Sample>
    requires rate > 0
  {
    if rate == OUT_RATE then s else Outputs(s, rate, Determined(|s|, rate))
  }

  /** The whole output, `|s| * 48000 / rate` frames rounded up. */
  function Complete(s: seq<Sample>, rate: nat): (out: seq<Sample>)
    requires rate > 0
    ensures |out| == CeilDiv(|s| * OUT_RATE, rate)
  {
    if rate == OUT_RATE then
      CeilDivUnique(|s| * OUT_RATE, rate, |s|);
      s
    else
      Outputs(s, rate, CeilDiv(|s| * OUT_RATE, rate))
  }

  lemma {:induction false} CeilDivBounds(x: nat, r: nat)
    requires r > 0
    ensures x <= CeilDiv(x, r) * r < x + r
  {
    if x > r {
      CeilDivBounds(x - r, r);
      assert CeilDiv(x, r) * r == CeilDiv(x - r, r) * r + r;
    }
  }

  lemma CeilDivUnique(x: nat, r: nat, q: nat)
    requires r > 0 && x <= q * r < x + r
    ensures CeilDiv(x, r) == q
  {
    CeilDivBounds(x, r);
    Spaced(CeilDiv(x, r), q, r);
    Spaced(q, CeilDiv(x, r), r);
  }

  lemma Spaced(p: nat, q: nat, r: nat)
    ensures p < q ==> p * r + r <= q * r
  {
    if p < q {
      ProductMonotone(p + 1, q, r);
      assert (p + 1) * r == p * r + r;
    }
  }

  lemma {:induction false} ProductMonotone(a: nat, b: nat, r: nat)
    requires a <= b
    ensures a * r <= b * r
    decreases b
  {
    if a < b {
      ProductMonotone(a, b - 1, r);
      assert b * r == (b - 1) * r + r;
    }
  }

  // ----- what the closed form is good for

  /** The total length is the exact duration, rounded up to a whole frame. */
  lemma DurationKept(s: seq<Sample>, rate: nat)
    requires Supported(rate)
    ensures |s| * OUT_RATE <= |Complete(s, rate)| * rate < |s| * OUT_RATE + rate
  {
    CeilDivBounds(|s| * OUT_RATE, rate);
  }

  lemma LeftWithin(n: nat, rate: nat, k: nat)
    requires rate > 0 && k * rate < n * OUT_RATE
    ensures Left(rate, k) < n
  {
  }

  lemma BelowCeil(x: nat, r: nat, k: nat)
    requires r > 0
    ensures k < CeilDiv(x, r) <==> k * r < x
  {
    CeilDivBounds(x, r);
    Spaced(k, CeilDiv(x, r), r);
    if CeilDiv(x, r) <= k {
      ProductMonotone(CeilDiv(x, r), k, r);
    }
  }

  /** Every output frame of the whole conversion has its left neighbour among the input samples. */
  lemma NeighboursExist(s: seq<Sample>, rate: nat, k: nat)
    requires Supported(rate) && rate < OUT_RATE && k < |Complete(s, rate)|
    ensures s != [] && Left(rate, k) < |s|
    ensures var a := s[Left(rate, k)];
            var b := if Left(rate, k) + 1 < |s| then s[Left(rate, k) + 1] else a;
            var out := Complete(s, rate)[k];
            (a <= out <= b) || (b <= out <= a)
  {
    BelowCeil(|s| * OUT_RATE, rate, k);
    LeftWithin(|s|, rate, k);
  }

  /**
   `out` is the whole number next to the point of the line from `a` to `b` at `phase / 48000` of the way, on
   the side of `a`: less than one away from it.
   */
  predicate OnLine(a: int, b: int, phase: nat, out: int) {
    var rise, exact := 48_000 * (out - a), (b - a) * phase;
    if a <= b then rise <= exact < rise + 48_000 else rise - 48_000 < exact <= rise
  }

  lemma LerpOnLine(a: Sample, b: Sample, phase: nat)
    requires phase < 48_000
    ensures OnLine(a, b, phase, Lerp(a, b, phase))
  {
    if a <= b {
      ProductBounds(b - a, phase);
    } else {
      ProductBounds(a - b, phase);
      assert (b - a) * phase == -((a - b) * phase);
    }
  }

  /**
   Output frame `k` interpolates: it lies on the line through its two source samples, at `k * rate / 48000`
   samples into the input; after the last sample the output stays there.
   */
  lemma OutputInterpolates(s: seq<Sample>, rate: nat, k: nat)
    requires s != []
    ensures var i := k * rate / 48_000;
            if i + 1 < |s| then OnLine(s[i], s[i + 1], k * rate % 48_000, OutputAt(s, rate, k))
            else OutputAt(s, rate, k) == s[|s| - 1]
  {
    var i := k * rate / 48_000;
    if i + 1 < |s| {
      LerpOnLine(s[i], s[i + 1], k * rate % 48_000);
    }
  }

  /** The same of every frame of the whole output. */
  lemma CompleteInterpolates(s: seq<Sample>, rate: nat, k: nat)
    requires Supported(rate) && k < |Complete(s, rate)|
    ensures var i := k * rate / 48_000;
            && i < |s|
            && OnLine(s[i], if i + 1 < |s| then s[i + 1] else s[i], k * rate % 48_000, Complete(s, rate)[k])
  {
    if rate < OUT_RATE {
      ResampledInterpolates(s, rate, k);
    } else {
      PassesThrough(s, rate, k);
    }
  }

  lemma ResampledInterpolates(s: seq<Sample>, rate: nat, k: nat)
    requires Supported(rate) && rate < OUT_RATE && k < |Complete(s, rate)|
    ensures var i := k * rate / 48_000;
            && i < |s|
            && OnLine(s[i], if i + 1 < |s| then s[i + 1] else s[i], k * rate % 48_000, Complete(s, rate)[k])
  {
    assert k * rate / 48_000 < |s| by {
      BelowCeil(|s| * OUT_RATE, rate, k);
      LeftWithin(|s|, rate, k);
    }
    assert Complete(s, rate)[k] == OutputAt(s, rate, k);
    OutputInterpolates(s, rate, k);
  }

  lemma PassesThrough(s: seq<Sample>, rate: nat, k: nat)
    requires rate == OUT_RATE && k < |Complete(s, rate)|
    ensures k < |s| && Complete(s, rate)[k] == s[k]
    ensures k * rate / 48_000 == k && k * rate % 48_000 == 0
  {
    CeilDivUnique(|s| * OUT_RATE, OUT_RATE, |s|);
  }

  /**
   An evenly rising or falling input is resampled to an exactly even output, when its step is such that no
   output frame falls between two whole numbers; `slope` is the step of the output.
   */
  lemma LineStaysLine(s: seq<Sample>, rate: nat, step: int, slope: int, k: nat)
    requires Supported(rate) && k < |Complete(s, rate)| && k * rate / 48_000 + 1 < |s|
    requires forall i | 0 <= i < |s| :: s[i] == s[0] + i * step
    requires step * rate == 48_000 * slope
    ensures Complete(s, rate)[k] == s[0] + k * slope
  {
    var i := k * rate / 48_000;
    assert OnLine(s[i], s[i + 1], k * rate % 48_000, Complete(s, rate)[k]) by { CompleteInterpolates(s, rate, k); }
    assert s[i] as int == s[0] + i * step && s[i + 1] as int - s[i] as int == step by { StepOfLine(s, step, i); }
    PointOfLine(s[0], s[i], s[i + 1], Complete(s, rate)[k], rate, step, slope, k, i);
  }

  lemma StepOfLine(s: seq<Sample>, step: int, i: nat)
    requires forall i | 0 <= i < |s| :: s[i] == s[0] + i * step
    requires i + 1 < |s|
    ensures s[i] as int == s[0] + i * step && s[i + 1] as int - s[i] as int == step
  {
    assert (i + 1) * step == i * step + step;
  }

  lemma PhaseOfLine(x: int, rate: nat, step: int, k: nat, i: nat, phase: nat, slope: int)
    requires x == k * rate == 48_000 * i + phase && step * rate == 48_000 * slope
    ensures step * phase == 48_000 * (k * slope - i * step)
  {
    assert step * (k * rate) == k * (step * rate);
    assert step * (48_000 * i + phase) == 48_000 * (i * step) + step * phase;
    assert k * (48_000 * slope) == 48_000 * (k * slope);
  }

  lemma PointOfLine(start: int, a: int, b: int, out: int, rate: nat, step: int, slope: int, k: nat, i: nat)
    requires i == k * rate / 48_000 && OnLine(a, b, k * rate % 48_000, out)
    requires a == start + i * step && b - a == step && step * rate == 48_000 * slope
    ensures out == start + k * slope
  {
    var phase := k * rate % 48_000;
    PhaseOfLine(k * rate, rate, step, k, i, phase, slope);
    WholeOnLine(a, b, phase, out, k * slope - i * step);
  }

  /** A whole number on the line is hit exactly. */
  lemma WholeOnLine(a: int, b: int, phase: nat, out: int, rise: int)
    requires OnLine(a, b, phase, out) && (b - a) * phase == 48_000 * rise
    ensures out == a + rise
  {
  }

  ghost predicate NonDecreasing(s: seq<Sample>) {
    forall i, j | 0 <= i <= j < |s| :: s[i] <= s[j]
  }

  lemma PositionsRise(rate: nat, k: nat, m: nat)
    requires k <= m
    ensures Left(rate, k) <= Left(rate, m) && (Left(rate, k) == Left(rate, m) ==> Phase(rate, k) <= Phase(rate, m))
  {
    assert k * rate <= m * rate;
  }

  lemma OutputRises(s: seq<Sample>, rate: nat, k: nat, m: nat)
    requires s != [] && NonDecreasing(s) && k <= m
    ensures OutputAt(s, rate, k) <= OutputAt(s, rate, m)
  {
    PositionsRise(rate, k, m);
    var i, j := Left(rate, k), Left(rate, m);
    if i == j && i + 1 < |s| {
      LerpMonotone(s[i], s[i + 1], Phase(rate, k), Phase(rate, m));
    }
  }

  /** Rising input is resampled to rising output. */
  lemma MonotoneStaysMonotone(s: seq<Sample>, rate: nat)
    requires Supported(rate) && NonDecreasing(s)
    ensures NonDecreasing(Complete(s, rate))
  {
    if rate < OUT_RATE && s != [] {
      var out := Complete(s, rate);
      forall k, m | 0 <= k <= m < |out| ensures out[k] <= out[m] {
        OutputRises(s, rate, k, m);
      }
    }
  }

  /** More input does not change the frames already determined. */
  lemma DeterminedStay(s: seq<Sample>, more: seq<Sample>, rate: nat)
    requires Supported(rate) && s != []
    ensures Outputs(s + more, rate, Determined(|s|, rate)) == Outputs(s, rate, Determined(|s|, rate))
  {
    forall k | 0 <= k < Determined(|s|, rate) ensures OutputAt(s + more, rate, k) == OutputAt(s, rate, k) {
      BelowCeil((|s| - 1) * OUT_RATE, rate, k);
      LeftWithin(|s| - 1, rate, k);
    }
  }

  // ----- stereo bytes

  /** One sample in both channels. */
  function StereoFrame(s: Sample): (out: seq<Byte>)
    ensures |out| == 4
  {
    ToLe(s) + ToLe(s)
  }

  /** Both channels of every sample: byte `i` belongs to sample `i / 4`. */
  function Stereo(samples: seq<Sample>): (out: seq<Byte>)
    ensures |out| == 4 * |samples|
  {
    seq(4 * |samples|, i requires 0 <= i < 4 * |samples| => StereoFrame(samples[i / 4])[i % 4])
  }

  lemma StereoSnoc(samples: seq<Sample>, s: Sample)
    ensures Stereo(samples + [s]) == Stereo(samples) + StereoFrame(s)
  {
    assert (samples + [s])[..|samples|] == samples;
  }

  /** Every sample is in both channels. */
  lemma BothChannels(samples: seq<Sample>, i: nat)
    requires i < |samples|
    ensures SampleAt(Stereo(samples), 2 * i) == samples[i] == SampleAt(Stereo(samples), 2 * i + 1)
  {
    LeRoundTrip(samples[i]);
    var frame, out := StereoFrame(samples[i]), Stereo(samples);
    assert out[4 * i] == frame[0] && out[4 * i + 1] == frame[1];
    assert out[4 * i + 2] == frame[2] && out[4 * i + 3] == frame[3];
  }

  lemma NextOutput(s: seq<Sample>, rate: nat, k: nat)
    requires s != []
    ensures Stereo(Outputs(s, rate, k + 1)) == Stereo(Outputs(s, rate, k)) + StereoFrame(OutputAt(s, rate, k))
  {
    assert Outputs(s, rate, k + 1) == Outputs(s, rate, k) + [OutputAt(s, rate, k)];
    StereoSnoc(Outputs(s, rate, k), OutputAt(s, rate, k));
  }

  // ----- the converter

  /**
   The phase after `n` samples and `k` frames of output: how far frame `k` lies past sample `n - 1`.
   */
  ghost predicate AtPhase(pos: int, n: nat, k: nat, rate: nat) {
    pos == Position(k, rate) - (n - 1) * OUT_RATE
  }

  /** `k` steps of `rate`. */
  ghost function Position(k: nat, rate: nat): nat {
    if k == 0 then 0 else Position(k - 1, rate) + rate
  }

  lemma {:induction false} PositionIsProduct(k: nat, rate: nat)
    ensures Position(k, rate) == k * rate
  {
    if k > 0 {
      PositionIsProduct(k - 1, rate);
      assert k * rate == (k - 1) * rate + rate;
    }
  }

  /** A frame whose phase is within the interval after sample `n - 1` interpolates that interval. */
  lemma PhaseSelects(pos: nat, n: nat, k: nat, rate: nat)
    requires n > 0 && AtPhase(pos, n, k, rate) && pos < OUT_RATE
    ensures Left(rate, k) == n - 1 && Phase(rate, k) == pos
  {
    PositionIsProduct(k, rate);
  }

  /** The phase between intervals says how many frames are out: exactly the determined ones. */
  lemma PhaseDetermines(pos: nat, n: nat, k: nat, rate: nat)
    requires n > 0 && 0 < rate && AtPhase(pos, n, k, rate) && pos < rate
    ensures k == Determined(n, rate)
  {
    PositionIsProduct(k, rate);
    CeilDivUnique((n - 1) * OUT_RATE, rate, k);
  }

  /** The phase past the last interval says how many frames are out: all of them. */
  lemma PhaseLeaves(pos: nat, n: nat, k: nat, rate: nat)
    requires n > 0 && rate > 0 && AtPhase(pos, n, k, rate) && OUT_RATE <= pos < OUT_RATE + rate
    ensures k == CeilDiv(n * OUT_RATE, rate)
  {
    PositionIsProduct(k, rate);
    CeilDivUnique(n * OUT_RATE, rate, k);
  }

  /** The next frame while the phase is in the interval that `cur` closes, and the phase after it. */
  lemma NextBetween(s: seq<Sample>, cur: Sample, pos: nat, k: nat, rate: nat)
    requires s != [] && AtPhase(pos, |s|, k, rate) && pos < OUT_RATE
    ensures Stereo(Outputs(s + [cur], rate, k + 1))
         == Stereo(Outputs(s + [cur], rate, k)) + StereoFrame(Lerp(s[|s| - 1], cur, pos))
    ensures AtPhase(pos + rate, |s|, k + 1, rate)
  {
    PhaseSelects(pos, |s|, k, rate);
    NextOutput(s + [cur], rate, k);
  }

  /** The same when no sample follows: the last one is repeated. */
  lemma NextHeld(s: seq<Sample>, pos: nat, k: nat, rate: nat)
    requires s != [] && AtPhase(pos, |s|, k, rate) && pos < OUT_RATE
    ensures Stereo(Outputs(s, rate, k + 1)) == Stereo(Outputs(s, rate, k)) + StereoFrame(s[|s| - 1])
    ensures AtPhase(pos + rate, |s|, k + 1, rate)
  {
    PhaseSelects(pos, |s|, k, rate);
    NextOutput(s, rate, k);
  }

  lemma DecodeWhole(whole: seq<Byte>, odd: Byte)
    requires |whole| % 2 == 0
    ensures Decode(whole + [odd]) == Decode(whole)
  {
    assert forall i | 0 <= i < |whole| / 2 :: SampleAt(whole + [odd], i) == SampleAt(whole, i);
  }

  lemma DecodeAfterWhole(whole: seq<Byte>, rest: seq<Byte>)
    requires |whole| % 2 == 0
    ensures Decode(whole + rest) == Decode(whole) + Decode(rest)
  {
    var n := |whole| / 2;
    forall i | 0 <= i < n + |rest| / 2
      ensures SampleAt(whole + rest, i) == if i < n then SampleAt(whole, i) else SampleAt(rest, i - n)
    {
    }
  }

  /** The samples of an input whose odd byte comes first. */
  lemma DecodeCarried(before: seq<Byte>, mono: seq<Byte>)
    ensures var carried := if |before| % 2 == 1 then [before[|before| - 1]] + mono else mono;
            Decode(before + mono) == Decode(before) + Decode(carried)
  {
    if |before| % 2 == 1 {
      var whole, odd := before[..|before| - 1], before[|before| - 1];
      assert before == whole + [odd] && before + mono == whole + ([odd] + mono);
      DecodeWhole(whole, odd);
      DecodeAfterWhole(whole, [odd] + mono);
    } else {
      DecodeAfterWhole(before, mono);
    }
  }

  class MonoToStereo48k {
    const srcRate: nat
    var last: Option<Sample>
    var pos: nat
    var odd: Option<Byte>
    // Since the last reset: the bytes pushed, the frames put out, and their bytes.
    ghost var fed: seq<Byte>
    ghost var produced: nat
    ghost var emitted: seq<Byte>

    ghost predicate Valid()
      reads this
    {
      && Supported(srcRate)
      && (odd == if |fed| % 2 == 1 then Some(fed[|fed| - 1]) else None)
      && Consumed(Decode(fed))
    }

    /** The memory and the output of the converter once it has consumed the samples `s`. */
    ghost predicate Consumed(s: seq<Sample>)
      reads `last, `pos, `produced, `emitted
    {
      if srcRate == OUT_RATE then last == None && pos == 0 && emitted == Stereo(s)
      else if s == [] then last == None && pos == 0 && produced == 0 && emitted == []
      else last == Some(s[|s| - 1]) && pos < srcRate && AtPhase(pos, |s|, produced, srcRate)
           && emitted == Stereo(Outputs(s, srcRate, produced))
    }

    constructor (srcRate: nat)
      requires Supported(srcRate)
      ensures Valid() && fed == [] && this.srcRate == srcRate
    {
      this.srcRate, last, pos, odd := srcRate, None, 0, None;
      fed, produced, emitted := [], 0, [];
    }

    static method Create(srcRate: int) returns (r: Result<MonoToStereo48k, string>)
      ensures r.Success? <==> 8_000 <= srcRate <= 48_000
      ensures r.Success? ==> fresh(r.value) && r.value.Valid() && r.value.fed == [] && r.value.srcRate == srcRate
    {
      if MIN_RATE <= srcRate <= OUT_RATE {
        var c := new MonoToStereo48k(srcRate);
        return Success(c);
      }
      return Failure("unsupported TTS sample rate");
    }

    /** What has been put out is always the closed form of what has been fed. */
    lemma EmittedIsStreamed()
      requires Valid()
      ensures emitted == Stereo(Streamed(Decode(fed), srcRate))
    {
      var s := Decode(fed);
      if srcRate < OUT_RATE && s != [] {
        PhaseDetermines(pos, |s|, produced, srcRate);
      }
    }

    /** Converts more bytes; how the input was cut into calls leaves no trace in the state. */
    method Push(mono: seq<Byte>) returns (out: seq<Byte>)
      requires Valid()
      modifies this
      ensures Valid() && fed == old(fed) + mono
      ensures emitted == old(emitted) + out
    {
      ghost var s := Decode(fed);
      var input := TakeWhole(mono);
      out := ConsumeAll(Decode(input), s);
    }

    /** The bytes to convert now: the carried odd byte first, a new odd byte kept back. */
    method TakeWhole(mono: seq<Byte>) returns (input: seq<Byte>)
      requires Valid()
      modifies `odd, `fed
      ensures fed == old(fed) + mono && |input| % 2 == 0
      ensures odd == if |fed| % 2 == 1 then Some(fed[|fed| - 1]) else None
      ensures Decode(fed) == Decode(old(fed)) + Decode(input)
    {
      DecodeCarried(fed, mono);
      input := if odd.Some? then [odd.value] + mono else mono;
      odd := None;
      if |input| % 2 == 1 {
        odd := Some(input[|input| - 1]);
        input := input[..|input| - 1];
        DecodeWhole(input, odd.value);
      }
      fed := fed + mono;
    }

    method ConsumeAll(samples: seq<Sample>, ghost s0: seq<Sample>) returns (out: seq<Byte>)
      requires Supported(srcRate) && Consumed(s0)
      modifies `last, `pos, `produced, `emitted
      ensures Consumed(s0 + samples) && emitted == old(emitted) + out
    {
      out := [];
      assert s0 + samples[..0] == s0;
      for j := 0 to |samples|
        invariant Consumed(s0 + samples[..j])
        invariant emitted == old(emitted) + out
      {
        ghost var s, next := s0 + samples[..j], s0 + samples[..j + 1];
        assert next == s + [samples[j]];
        var more := Consume(samples[j], s, next);
        Associative(old(emitted), out, more);
        out := out + more;
      }
      assert samples[..|samples|] == samples;
    }

    /** One sample: the frames of the interval it closes. */
    method Consume(cur: Sample, ghost s: seq<Sample>, ghost next: seq<Sample>) returns (out: seq<Byte>)
      requires Supported(srcRate) && Consumed(s) && next == s + [cur]
      modifies `last, `pos, `produced, `emitted
      ensures Consumed(next) && emitted == old(emitted) + out
    {
      if srcRate == OUT_RATE {
        StereoSnoc(s, cur);
        out := StereoFrame(cur);
        emitted := emitted + out;
      } else if last.None? {
        last, pos := Some(cur), 0;
        out := [];
      } else {
        PhaseDetermines(pos, |s|, produced, srcRate);
        DeterminedStay(s, [cur], srcRate);
        out := EmitBetween(cur, s, next);
        pos := pos - OUT_RATE;
        last := Some(cur);
      }
    }

    /** The frames that lie between the last sample of `s` and `cur`. */
    method EmitBetween(cur: Sample, ghost s: seq<Sample>, ghost next: seq<Sample>) returns (out: seq<Byte>)
      requires 0 < srcRate < OUT_RATE && s != [] && last == Some(s[|s| - 1]) && next == s + [cur]
      requires pos < OUT_RATE && AtPhase(pos, |s|, produced, srcRate)
      requires emitted == Stereo(Outputs(next, srcRate, produced))
      modifies `pos, `produced, `emitted
      ensures OUT_RATE <= pos < OUT_RATE + srcRate && AtPhase(pos, |s|, produced, srcRate)
      ensures emitted == Stereo(Outputs(next, srcRate, produced)) && emitted == old(emitted) + out
    {
      var prev := last.value;
      out := [];
      while pos < OUT_RATE
        invariant AtPhase(pos, |s|, produced, srcRate) && pos < OUT_RATE + srcRate
        invariant emitted == Stereo(Outputs(next, srcRate, produced)) && emitted == old(emitted) + out
        decreases OUT_RATE - pos
      {
        NextBetween(s, cur, pos, produced, srcRate);
        out := out + StereoFrame(Lerp(prev, cur, pos));
        emitted := emitted + StereoFrame(Lerp(prev, cur, pos));
        pos, produced := pos + srcRate, produced + 1;
      }
    }

    /** Completes the closed form for everything fed, and starts over. */
    method Finish() returns (out: seq<Byte>)
      requires Valid()
      modifies this
      ensures Valid() && fed == [] && emitted == []
      ensures old(emitted) + out == Stereo(Complete(Decode(old(fed)), srcRate))
    {
      ghost var s := Decode(fed);
      out := [];
      if last.Some? {
        out := EmitHeld(s);
        PhaseLeaves(pos, |s|, produced, srcRate);
      }
      last, pos, odd := None, 0, None;
      fed, produced, emitted := [], 0, [];
    }

    /** The frames that the last sample of `s` is held for. */
    method EmitHeld(ghost s: seq<Sample>) returns (out: seq<Byte>)
      requires 0 < srcRate < OUT_RATE && s != [] && last == Some(s[|s| - 1])
      requires pos < OUT_RATE && AtPhase(pos, |s|, produced, srcRate)
      requires emitted == Stereo(Outputs(s, srcRate, produced))
      modifies `pos, `produced, `emitted
      ensures OUT_RATE <= pos < OUT_RATE + srcRate && AtPhase(pos, |s|, produced, srcRate)
      ensures emitted == Stereo(Outputs(s, srcRate, produced)) && emitted == old(emitted) + out
    {
      var prev := last.value;
      out := [];
      while pos < OUT_RATE
        invariant AtPhase(pos, |s|, produced, srcRate) && pos < OUT_RATE + srcRate
        invariant emitted == Stereo(Outputs(s, srcRate, produced)) && emitted == old(emitted) + out
        decreases OUT_RATE - pos
      {
        NextHeld(s, pos, produced, srcRate);
        out := out + StereoFrame(prev);
        emitted := emitted + StereoFrame(prev);
        pos, produced := pos + srcRate, produced + 1;
      }
    }
  }

  // ----- whole streams

  function Joined(chunks: seq<seq<Byte>>): seq<Byte> {
    if chunks == [] then [] else Joined(chunks[..|chunks| - 1]) + chunks[|chunks| - 1]
  }

  /** A stream converted chunk by chunk: however it was cut, the result is the closed form of the whole. */
  method ConvertStream(srcRate: nat, chunks: seq<seq<Byte>>) returns (out: seq<Byte>)
    requires Supported(srcRate)
    ensures out == Stereo(Complete(Decode(Joined(chunks)), srcRate))
  {
    var up := new MonoToStereo48k(srcRate);
    out := [];
    for i := 0 to |chunks|
      invariant up.Valid() && fresh(up) && up.srcRate == srcRate
      invariant up.fed == Joined(chunks[..i])
      invariant out == up.emitted
    {
      assert chunks[..i + 1][..i] == chunks[..i];
      var more := up.Push(chunks[i]);
      out := out + more;
    }
    assert chunks[..|chunks|] == chunks;
    var tail := up.Finish();
    out := out + tail;
  }
}
