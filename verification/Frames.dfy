/**
 Audio frames of the mixer, as terms over the operations that build them.

 A frame either came from a source (`Raw`), is the digital silence the mixer inserts (`Silent`),
 or was built by one of the two sample-level operations, the cross-fade of two consecutive frames
 (`Merged`) and the faded replay used for concealment (`Faded`).  Their sample arithmetic is floating
 point and left uninterpreted, so what is proved holds for every interpretation of it.
 */
module Frames {

  type Byte = b: int | 0 <= b < 256

  const FRAME_MS := 20
  // One media tick, in microseconds (the unit of every time in this project).
  const TICK_US := 20_000
  const FRAME_BYTES := 3_840

  datatype Frame =
    | Silent
    | Raw(pcm: seq<Byte>)
    | Merged(older: Frame, newer: Frame)
    | Faded(of: Frame)

  predicate IsValid(pcm: seq<Byte>) {
    |pcm| == FRAME_BYTES
  }

  /** The source frames whose audio a frame carries, oldest first.  A concealment replay carries none. */
  function Sources(f: Frame): seq<seq<Byte>> {
    match f
    case Silent => []
    case Raw(pcm) => [pcm]
    case Merged(a, b) => Sources(a) + Sources(b)
    case Faded(_) => []
  }

  /** The source frames carried by a sequence of frames, in order. */
  function SourcesOf(fs: seq<Frame>): seq<seq<Byte>> {
    if fs == [] then [] else Sources(fs[0]) + SourcesOf(fs[1..])
  }

  lemma {:induction false} SourcesOfConcat(a: seq<Frame>, b: seq<Frame>)
    ensures SourcesOf(a + b) == SourcesOf(a) + SourcesOf(b)
  {
    if a == [] {
      assert a + b == b;
    } else {
      assert (a + b)[1..] == a[1..] + b;
      SourcesOfConcat(a[1..], b);
    }
  }

  lemma SourcesOfOne(f: Frame)
    ensures SourcesOf([f]) == Sources(f)
  {
    assert SourcesOf([f][1..]) == [];
  }
}
