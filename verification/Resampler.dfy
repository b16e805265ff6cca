/** The nearest-neighbour PCM resampler and channel mapper of the audio layer. */
module Resampler {
  import opened Arithmetic

  const U8: int := 0x100

  ghost predicate Formats(inRate: nat, inChannels: nat, outRate: nat, outChannels: nat) {
    inRate < U32 && outRate < U32 && inChannels < U8 && outChannels < U8
  }

  // The input frame played at output frame j.
  function SourceFrame(j: nat, inRate: nat, outRate: nat): nat
    requires outRate > 0
  {
    j * inRate / outRate
  }

  // ceil(inFrames * outRate / inRate), without the final cast.
  function Needed(inFrames: nat, inRate: nat, outRate: nat): nat
    requires inRate > 0
  {
    (inFrames * outRate + inRate - 1) / inRate
  }

  // `output_frames`: the same number cast to usize.
  function OutputFrames(inFrames: nat, inRate: nat, outRate: nat): nat {
    if inRate == 0 then 0 else Needed(inFrames, inRate, outRate) % WORD
  }

  // Position of the first sample of a frame, and the number of whole frames.
  function Base(frame: nat, channels: nat): nat {
    frame * channels
  }

  function Frames(samples: nat, channels: nat): nat
    requires channels > 0
  {
    samples / channels
  }

  // Position in the input of the sample that belongs at position k of the output.
  function SourceIndex(k: nat, inRate: nat, inChannels: nat, outRate: nat, outChannels: nat): int
    requires outRate > 0 && outChannels > 0
  {
    SourceFrame(k / outChannels, inRate, outRate) * inChannels + Min(k % outChannels, inChannels - 1)
  }

  // ------------------------------------------------------------- floor against ceiling

  lemma DivBelow(x: nat, d: nat, f: nat)
    requires d > 0
    ensures x / d < f <==> x < f * d
  {
    var q, r := x / d, x % d;
    assert x == q * d + r;
    if q < f {
      MulLe(q + 1, f, d);
      assert (q + 1) * d == q * d + d;
    } else {
      MulLe(f, q, d);
    }
  }

  lemma BelowCeiling(j: nat, y: nat, d: nat)
    requires d > 0
    ensures j < (y + d - 1) / d <==> j * d < y
  {
    DivBelow(y + d - 1, d, j + 1);
    assert (j + 1) * d == j * d + d;
  }

  /** The loop's floor-indexed stop condition is exactly the ceiling formula. */
  lemma StopsAtTheCeiling(j: nat, inFrames: nat, inRate: nat, outRate: nat)
    requires inRate > 0 && outRate > 0
    ensures SourceFrame(j, inRate, outRate) < inFrames <==> j < Needed(inFrames, inRate, outRate)
  {
    DivBelow(j * inRate, outRate, inFrames);
    BelowCeiling(j, inFrames * outRate, inRate);
  }

  /** One frame further the source advances by at most the rate ratio, so no cast truncates. */
  lemma NextSourceFrameFits(j: nat, inFrames: nat, inRate: nat, outRate: nat)
    requires 0 < inRate < U32 && 0 < outRate && inFrames <= SLICE
    requires j > 0 ==> SourceFrame(j - 1, inRate, outRate) < inFrames
    ensures SourceFrame(j, inRate, outRate) < WORD
  {
    DivBelow(j * inRate, outRate, WORD);
    if j > 0 {
      DivBelow((j - 1) * inRate, outRate, inFrames);
      assert j * inRate == (j - 1) * inRate + inRate;
      MulLe(1, outRate, inRate);
      assert (inFrames + inRate) * outRate == inFrames * outRate + inRate * outRate;
      MulLe(inFrames + inRate, WORD, outRate);
    } else {
      MulLe(1, outRate, WORD);
    }
  }

  // ------------------------------------------------------------- positions

  lemma SourceIndexAt(j: nat, ch: nat, inRate: nat, inChannels: nat, outRate: nat, outChannels: nat)
    requires outRate > 0 && ch < outChannels
    ensures SourceIndex(j * outChannels + ch, inRate, inChannels, outRate, outChannels)
         == SourceFrame(j, inRate, outRate) * inChannels + Min(ch, inChannels - 1)
  {
    hide SourceFrame;
    ModUnique(j * outChannels + ch, j, outChannels, ch);
  }

  lemma FrameFits(j: nat, channels: nat, length: nat)
    requires channels > 0 && j < Frames(length, channels)
    ensures Base(j, channels) + channels <= length
  {
    var q := length / channels;
    MulLe(j + 1, q, channels);
    assert (j + 1) * channels == j * channels + channels;
    assert length == q * channels + length % channels;
  }

  lemma NextBase(j: nat, channels: nat)
    ensures Base(0, channels) == 0
    ensures Base(j + 1, channels) == Base(j, channels) + channels
  {
  }

  lemma FramesBounded(samples: nat, channels: nat)
    requires channels > 0
    ensures Frames(samples, channels) <= samples
  {
    DivBelow(samples, channels, samples + 1);
    MulLe(1, channels, samples + 1);
  }

  // ------------------------------------------------------------- the code

  // The samples at positions outBase.. come from the input frame at inBase.
  ghost predicate FrameAt(outBase: nat, inBase: nat, inRate: nat, inChannels: nat, outRate: nat, outChannels: nat)
    requires outRate > 0 && outChannels > 0
  {
    forall k {:trigger SourceIndex(k, inRate, inChannels, outRate, outChannels)} ::
      outBase <= k < outBase + outChannels ==>
        SourceIndex(k, inRate, inChannels, outRate, outChannels) == inBase + Min(k - outBase, inChannels - 1)
  }

  lemma FrameAtBase(j: nat, inRate: nat, inChannels: nat, outRate: nat, outChannels: nat)
    requires outRate > 0 && outChannels > 0
    ensures FrameAt(Base(j, outChannels), Base(SourceFrame(j, inRate, outRate), inChannels),
                    inRate, inChannels, outRate, outChannels)
  {
    hide SourceFrame, SourceIndex;
    var outBase := j * outChannels;
    forall k {:trigger SourceIndex(k, inRate, inChannels, outRate, outChannels)} |
      outBase <= k < outBase + outChannels
      ensures SourceIndex(k, inRate, inChannels, outRate, outChannels)
           == SourceFrame(j, inRate, outRate) * inChannels + Min(k - outBase, inChannels - 1)
    {
      SourceIndexAt(j, k - outBase, inRate, inChannels, outRate, outChannels);
    }
  }

  ghost predicate Filled(out: seq<int>, before: seq<int>, input: seq<int>, n: nat,
                         inRate: nat, inChannels: nat, outRate: nat, outChannels: nat)
    requires outRate > 0 && outChannels > 0
  {
    && |out| == |before|
    && (forall k :: 0 <= k < n <= |out| ==>
          var i := SourceIndex(k, inRate, inChannels, outRate, outChannels);
          0 <= i < |input| && out[k] == input[i])
    && (forall k :: n <= k < |out| ==> out[k] == before[k])
  }

  lemma NothingFilled(out: seq<int>, input: seq<int>, inRate: nat, inChannels: nat, outRate: nat, outChannels: nat)
    requires outRate > 0 && outChannels > 0
    ensures Filled(out, out, input, 0, inRate, inChannels, outRate, outChannels)
  {
  }

  // Write the frame at `outBase` from the frame at `inBase`: missing channels repeat the last
  // one of the input, extra ones are dropped.
  method MapFrame(input: seq<int>, inRate: nat, inChannels: nat, outRate: nat, outChannels: nat,
                  output: array<int>, outBase: nat, inBase: nat, ghost before: seq<int>)
    requires outRate > 0 && outChannels > 0 && inChannels > 0
    requires inBase + inChannels <= |input| && outBase + outChannels <= output.Length
    requires FrameAt(outBase, inBase, inRate, inChannels, outRate, outChannels)
    requires Filled(output[..], before, input, outBase, inRate, inChannels, outRate, outChannels)
    modifies output
    ensures Filled(output[..], before, input, outBase + outChannels, inRate, inChannels, outRate, outChannels)
  {
    hide SourceIndex;
    var ch := 0;
    while ch < outChannels
      invariant ch <= outChannels
      invariant Filled(output[..], before, input, outBase + ch, inRate, inChannels, outRate, outChannels)
    {
      var srcCh := if ch < inChannels then ch else inChannels - 1;
      assert SourceIndex(outBase + ch, inRate, inChannels, outRate, outChannels) == inBase + srcCh;
      output[outBase + ch] := input[inBase + srcCh];
      ch := ch + 1;
    }
  }

  /**
   * `mix`: the frames written, every sample of them, and everything left alone. The result is
   * the exact ceiling, whether or not it fits a usize.
   */
  method Mix(outRate: nat, outChannels: nat, input: seq<int>, inRate: nat, inChannels: nat,
             output: array<int>) returns (frames: nat)
    requires Formats(inRate, inChannels, outRate, outChannels)
    requires |input| < SLICE && output.Length < SLICE
    modifies output
    ensures inRate == 0 || inChannels == 0 || outRate == 0 || outChannels == 0 ==>
              frames == 0 && output[..] == old(output[..])
    ensures inRate > 0 && inChannels > 0 && outRate > 0 && outChannels > 0 ==>
              && frames == Min(Frames(output.Length, outChannels),
                               Needed(Frames(|input|, inChannels), inRate, outRate))
              && Filled(output[..], old(output[..]), input, Base(frames, outChannels),
                        inRate, inChannels, outRate, outChannels)
  {
    hide SourceFrame, Needed, SourceIndex, Filled, FrameAt, Base, Frames;
    if inRate == 0 || inChannels == 0 || outChannels == 0 || outRate == 0 {
      return 0;
    }
    NextBase(0, outChannels);
    NothingFilled(output[..], input, inRate, inChannels, outRate, outChannels);
    FramesBounded(|input|, inChannels);
    var inFrames := Frames(|input|, inChannels);
    if inFrames == 0 {
      StopsAtTheCeiling(0, inFrames, inRate, outRate);
      return 0;
    }
    var maxOutFrames := Frames(output.Length, outChannels);
    var outFrame := 0;
    while outFrame < maxOutFrames
      invariant outFrame <= maxOutFrames
      invariant outFrame <= Needed(inFrames, inRate, outRate)
      invariant Filled(output[..], old(output[..]), input, Base(outFrame, outChannels),
                       inRate, inChannels, outRate, outChannels)
    {
      if outFrame > 0 { StopsAtTheCeiling(outFrame - 1, inFrames, inRate, outRate); }
      StopsAtTheCeiling(outFrame, inFrames, inRate, outRate);
      NextSourceFrameFits(outFrame, inFrames, inRate, outRate);
      var inFrame := SourceFrame(outFrame, inRate, outRate) % WORD;
      if inFrame >= inFrames {
        break;
      }
      FrameFits(outFrame, outChannels, output.Length);
      FrameFits(inFrame, inChannels, |input|);
      FrameAtBase(outFrame, inRate, inChannels, outRate, outChannels);
      NextBase(outFrame, outChannels);
      var inBase := Base(inFrame, inChannels);
      var outBase := Base(outFrame, outChannels);
      MapFrame(input, inRate, inChannels, outRate, outChannels, output, outBase, inBase, old(output[..]));
      outFrame := outFrame + 1;
    }
    return outFrame;
  }

  // ------------------------------------------------------------- what is played when

  // Output frame j starts at j / outRate, input frame f lasts from f / inRate to (f + 1) / inRate.
  ghost predicate HeardAt(f: nat, j: nat, inRate: nat, outRate: nat) {
    f * outRate <= j * inRate < (f + 1) * outRate
  }

  /**
   * Output frame j plays the one input frame that is heard when j starts, and is written just when it
   * starts before the input ends; channel ch plays channel ch, or the last one there is.
   */
  lemma PlaysInTime(j: nat, ch: nat, inFrames: nat, inRate: nat, inChannels: nat, outRate: nat, outChannels: nat)
    returns (f: nat)
    requires inRate > 0 && outRate > 0 && inChannels > 0 && ch < outChannels
    ensures HeardAt(f, j, inRate, outRate)
    ensures forall g: nat :: HeardAt(g, j, inRate, outRate) ==> g == f
    ensures SourceIndex(j * outChannels + ch, inRate, inChannels, outRate, outChannels)
         == f * inChannels + if ch < inChannels then ch else inChannels - 1
    ensures j < Needed(inFrames, inRate, outRate) <==> j * inRate < inFrames * outRate
  {
    f := SourceFrame(j, inRate, outRate);
    DivBelow(j * inRate, outRate, f);
    DivBelow(j * inRate, outRate, f + 1);
    SourceIndexAt(j, ch, inRate, inChannels, outRate, outChannels);
    BelowCeiling(j, inFrames * outRate, inRate);
    forall g: nat | HeardAt(g, j, inRate, outRate) ensures g == f {
      DivBelow(j * inRate, outRate, g);
      DivBelow(j * inRate, outRate, g + 1);
    }
  }

  // ------------------------------------------------------------- the documented size

  /** `output_frames` is the exact ceiling if and only if the input is not longer than this. */
  lemma OutputFramesIsExactIff(inFrames: nat, inRate: nat, outRate: nat)
    requires inRate > 0
    ensures OutputFrames(inFrames, inRate, outRate) == Needed(inFrames, inRate, outRate)
       <==> inFrames * outRate <= (WORD - 1) * inRate
  {
    BelowCeiling(WORD - 1, inFrames * outRate, inRate);
  }

  /**
   * What it announces against what `mix` writes: a buffer of the announced size takes every frame if
   * and only if the input is not longer than that, and then no buffer tells the two numbers apart.
   */
  lemma AnnouncedSizeSufficesIff(inFrames: nat, inRate: nat, outRate: nat)
    requires inRate > 0
    ensures
      var needed, announced := Needed(inFrames, inRate, outRate), OutputFrames(inFrames, inRate, outRate);
      && (Min(announced, needed) == needed <==> inFrames * outRate <= (WORD - 1) * inRate)
      && ((forall capacity: nat :: Min(capacity, needed) == Min(capacity, announced))
          <==> inFrames * outRate <= (WORD - 1) * inRate)
  {
    hide Needed;
    OutputFramesIsExactIff(inFrames, inRate, outRate);
    var needed, announced := Needed(inFrames, inRate, outRate), OutputFrames(inFrames, inRate, outRate);
    assert Min(needed, needed) == Min(needed, announced) ==> needed <= announced;
  }

  /** An input for which the announced size is zero although frames are written. */
  lemma OutputFramesCanTruncateToZero()
    ensures Needed(0x2_0000_0000, 1, 0x8000_0000) == WORD
    ensures OutputFrames(0x2_0000_0000, 1, 0x8000_0000) == 0
  {
    assert 0x2_0000_0000 * 0x8000_0000 == WORD;
  }
}
