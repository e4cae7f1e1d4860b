/** 16-bit little-endian PCM samples. */
module Pcm {
  import opened Frames

  type Sample = x: int | -32_768 <= x < 32_768

  function FromLe(lo: Byte, hi: Byte): Sample {
    var u := lo + 256 * hi;
    if u >= 32_768 then u - 65_536 else u
  }

  function ToLe(s: Sample): seq<Byte> {
    var u := if s < 0 then s + 65_536 else s;
    [u % 256, u / 256]
  }

  lemma LeRoundTrip(s: Sample)
    ensures |ToLe(s)| == 2 && FromLe(ToLe(s)[0], ToLe(s)[1]) == s
  {
  }

  /** The first byte is the low one: a sample's value, modulo 2^16, is the little-endian number of its bytes. */
  lemma LowByteFirst(lo: Byte, hi: Byte)
    ensures (FromLe(lo, hi) - lo) % 256 == 0
    ensures hi < 128 ==> FromLe(lo, hi) - FromLe(0, 0) == lo + 256 * hi
    ensures hi >= 128 ==> FromLe(255, 255) - FromLe(lo, hi) == (255 - lo) + 256 * (255 - hi) && FromLe(255, 255) == -1
  {
  }

  /** The `i`-th sample of a byte string. */
  function SampleAt(pcm: seq<Byte>, i: nat): Sample
    requires 2 * i + 1 < |pcm|
  {
    FromLe(pcm[2 * i], pcm[2 * i + 1])
  }

  /** The whole samples of a byte string; an odd trailing byte is not part of any. */
  function Decode(pcm: seq<Byte>): (samples: seq<Sample>)
    ensures |samples| == |pcm| / 2
  {
    seq(|pcm| / 2, i requires 0 <= i < |pcm| / 2 => SampleAt(pcm, i))
  }

  function Encode(samples: seq<Sample>): seq<Byte> {
    if samples == [] then [] else Encode(samples[..|samples| - 1]) + ToLe(samples[|samples| - 1])
  }

  lemma EncodeMore(samples: seq<Sample>, i: nat)
    requires i < |samples|
    ensures Encode(samples[..i + 1]) == Encode(samples[..i]) + ToLe(samples[i])
    ensures |ToLe(samples[i])| == 2
  {
    assert samples[..i + 1][..i] == samples[..i];
  }

  lemma {:induction false} EncodedSamples(samples: seq<Sample>)
    ensures |Encode(samples)| == 2 * |samples| && Decode(Encode(samples)) == samples
  {
    if samples != [] {
      var n := |samples| - 1;
      EncodedSamples(samples[..n]);
      LeRoundTrip(samples[n]);
      forall i | 0 <= i < n ensures Decode(Encode(samples))[i] == samples[i] {
        assert Decode(Encode(samples))[i] == Decode(Encode(samples[..n]))[i];
      }
    }
  }
}
