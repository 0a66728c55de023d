/**
 What linear resampling of a whole input means: how many frames it gives, where each is interpolated, and
 how that grows with the input and moves when consumed frames are dropped.

 Samples are of an arbitrary type and the interpolation `lerp(current, next, fraction, outputRate)`
 is any function, so what is proved holds for the program's rounded `f32` arithmetic as it is.
 */
module LinearResampler {
  import opened Options
  import opened PositionArithmetic

  const USIZE_MAX: nat := 0xFFFF_FFFF_FFFF_FFFF
  const INTERPOLATION_MARGIN_FRAMES: nat := 2

  datatype Config = Config(inputRate: nat, outputRate: nat, channels: nat) {
    predicate Valid() { inputRate != 0 && outputRate != 0 && channels != 0 }
  }

  datatype Error =
    | InvalidConfig(config: Config)
    | InvalidOutputFrameSize(outputFrames: nat)
    | IncompleteFrame(samples: nat, channels: nat)
    | CapacityOverflow

  type Lerp<!T> = (T, T, nat, nat) -> T

  // ----- The one-shot meaning of a whole input -----

  /** How many output frames an input of `frames` frames determines. */
  function Count(c: Config, frames: nat): nat
    requires c.Valid()
  {
    if frames == 0 then 0 else (frames - 1) * c.outputRate / c.inputRate + 1
  }

  /** Whether output frame k can be interpolated: its position is no later than the last input frame. */
  lemma CountExact(c: Config, frames: nat, k: nat)
    requires c.Valid()
    ensures k < Count(c, frames) <==> frames > 0 && k * c.inputRate <= (frames - 1) * c.outputRate
  {
    if frames > 0 {
      FitsQuotient(k, c.inputRate, (frames - 1) * c.outputRate);
    }
  }

  /** The two input frames around a position, or one frame twice when it falls on it. */
  function Floor(c: Config, position: nat): nat
    requires c.Valid()
  {
    position / c.outputRate
  }

  function Ceil(c: Config, position: nat): nat
    requires c.Valid()
  {
    position / c.outputRate + if position % c.outputRate != 0 then 1 else 0
  }

  /** A position needs no frame beyond the last one exactly when it is no later than it. */
  lemma CeilInRange(c: Config, position: nat, frames: nat)
    requires c.Valid()
    ensures Ceil(c, position) < frames <==> frames > 0 && position <= (frames - 1) * c.outputRate
  {
    var q, r := position / c.outputRate, position % c.outputRate;
    DivMod(position, c.outputRate);
    if frames > 0 {
      Compare(q, r, c.outputRate, frames - 1);
    }
  }

  /** A whole number of d at least reaches q * d + r exactly when it is more than q, or q with nothing left over. */
  lemma Compare(q: nat, r: nat, d: nat, m: nat)
    requires r < d
    ensures q * d + r <= m * d <==> q + (if r != 0 then 1 else 0) <= m
  {
    if q < m {
      MulMono(q + 1, m, d);
      assert (q + 1) * d == q * d + d;
    } else if m < q {
      MulMono(m + 1, q, d);
      assert (m + 1) * d == m * d + d;
    }
  }

  function Frames<T>(c: Config, s: seq<T>): nat
    requires c.Valid()
  {
    |s| / c.channels
  }

  predicate WholeFrames<T>(c: Config, s: seq<T>)
    requires c.Valid()
  {
    |s| % c.channels == 0
  }

  lemma InFrame(frame: nat, frames: nat, channel: nat, channels: nat)
    requires frame < frames && channel < channels
    ensures frame * channels + channel < frames * channels
  {
    MulMono(frame + 1, frames, channels);
    assert (frame + 1) * channels == frame * channels + channels;
  }

  /** One sample of an interleaved buffer. */
  function Sample<T>(c: Config, s: seq<T>, frame: nat, channel: nat): T
    requires c.Valid() && frame < Frames(c, s) && channel < c.channels
  {
    InFrame(frame, Frames(c, s), channel, c.channels);
    s[frame * c.channels + channel]
  }

  /** The interpolated value at a position, in units of 1/outputRate input frames, on one channel. */
  function At<T>(lerp: Lerp<T>, c: Config, s: seq<T>, position: nat, channel: nat): T
    requires c.Valid() && channel < c.channels && Ceil(c, position) < Frames(c, s)
  {
    lerp(Sample(c, s, Floor(c, position), channel), Sample(c, s, Ceil(c, position), channel),
         position % c.outputRate, c.outputRate)
  }

  ghost function FrameAt<T>(lerp: Lerp<T>, c: Config, s: seq<T>, position: nat): (f: seq<T>)
    requires c.Valid() && Ceil(c, position) < Frames(c, s)
    ensures |f| == c.channels
  {
    seq(c.channels, ch requires 0 <= ch < c.channels => At(lerp, c, s, position, ch))
  }

  /** Output frames first..last of an input, by direct interpolation at k * inputRate / outputRate. */
  ghost function Direct<T>(lerp: Lerp<T>, c: Config, s: seq<T>, first: nat, last: nat): (r: seq<T>)
    requires c.Valid() && first <= last <= Count(c, Frames(c, s))
    ensures |r| == (last - first) * c.channels
    decreases last
  {
    if first == last then []
    else
      FrameReadable(c, Frames(c, s), last - 1);
      Direct(lerp, c, s, first, last - 1) + FrameAt(lerp, c, s, (last - 1) * c.inputRate)
  }

  lemma FrameReadable(c: Config, frames: nat, k: nat)
    requires c.Valid()
    ensures k < Count(c, frames) <==> Ceil(c, k * c.inputRate) < frames
  {
    CountExact(c, frames, k);
    CeilInRange(c, k * c.inputRate, frames);
  }

  /** The one-shot resample of a whole input. */
  ghost function Resampled<T>(lerp: Lerp<T>, c: Config, s: seq<T>): seq<T>
    requires c.Valid()
  {
    Direct(lerp, c, s, 0, Count(c, Frames(c, s)))
  }

  // ----- How the one-shot meaning grows with the input -----

  lemma CountMono(c: Config, m: nat, n: nat)
    requires c.Valid() && m <= n
    ensures Count(c, m) <= Count(c, n)
  {
    if 0 < Count(c, m) {
      CountExact(c, m, Count(c, m) - 1);
      MulMono(m - 1, n - 1, c.outputRate);
      CountExact(c, n, Count(c, m) - 1);
    }
  }

  lemma FramesAdd<T>(c: Config, s: seq<T>, t: seq<T>)
    requires c.Valid() && WholeFrames(c, s)
    ensures Frames(c, s + t) == Frames(c, s) + Frames(c, t)
    ensures WholeFrames(c, t) ==> WholeFrames(c, s + t)
    ensures Frames(c, s) * c.channels == |s|
  {
    var q, r := |t| / c.channels, |t| % c.channels;
    assert |t| == q * c.channels + r;
    assert |s| == Frames(c, s) * c.channels;
    assert (Frames(c, s) + q) * c.channels == |s| + q * c.channels;
    QuotientUnique(|s + t|, c.channels, Frames(c, s) + q, r);
  }

  /** Later input never changes an output frame already determined. */
  lemma {:induction false} DirectExtends<T>(lerp: Lerp<T>, c: Config, s: seq<T>, t: seq<T>, first: nat, last: nat)
    requires c.Valid() && WholeFrames(c, s) && first <= last <= Count(c, Frames(c, s))
    ensures last <= Count(c, Frames(c, s + t))
    ensures Direct(lerp, c, s + t, first, last) == Direct(lerp, c, s, first, last)
    decreases last
  {
    FramesAdd(c, s, t);
    CountMono(c, Frames(c, s), Frames(c, s + t));
    if first < last {
      DirectExtends(lerp, c, s, t, first, last - 1);
      FrameReadable(c, Frames(c, s), last - 1);
      FrameExtends(lerp, c, s, t, (last - 1) * c.inputRate);
    }
  }

  lemma FrameExtends<T>(lerp: Lerp<T>, c: Config, s: seq<T>, t: seq<T>, position: nat)
    requires c.Valid() && WholeFrames(c, s) && Ceil(c, position) < Frames(c, s) <= Frames(c, s + t)
    ensures FrameAt(lerp, c, s + t, position) == FrameAt(lerp, c, s, position)
  {
    forall ch | 0 <= ch < c.channels
      ensures At(lerp, c, s + t, position, ch) == At(lerp, c, s, position, ch)
    {
      SampleExtends(c, s, t, Floor(c, position), ch);
      SampleExtends(c, s, t, Ceil(c, position), ch);
    }
  }

  lemma SampleExtends<T>(c: Config, s: seq<T>, t: seq<T>, frame: nat, channel: nat)
    requires c.Valid() && frame < Frames(c, s) <= Frames(c, s + t) && channel < c.channels
    ensures Sample(c, s + t, frame, channel) == Sample(c, s, frame, channel)
  {
    InFrame(frame, Frames(c, s), channel, c.channels);
  }

  lemma {:induction false} DirectJoin<T>(lerp: Lerp<T>, c: Config, s: seq<T>, first: nat, mid: nat, last: nat)
    requires c.Valid() && first <= mid <= last <= Count(c, Frames(c, s))
    ensures Direct(lerp, c, s, first, mid) + Direct(lerp, c, s, mid, last) == Direct(lerp, c, s, first, last)
    decreases last
  {
    if mid < last {
      DirectJoin(lerp, c, s, first, mid, last - 1);
    }
  }

  // ----- Dropping consumed frames shifts every position -----

  lemma ShiftPosition(c: Config, position: nat, dropped: nat)
    requires c.Valid()
    ensures Floor(c, position + dropped * c.outputRate) == Floor(c, position) + dropped
    ensures Ceil(c, position + dropped * c.outputRate) == Ceil(c, position) + dropped
    ensures (position + dropped * c.outputRate) % c.outputRate == position % c.outputRate
  {
    var q, r := position / c.outputRate, position % c.outputRate;
    DivMod(position, c.outputRate);
    assert (q + dropped) * c.outputRate == q * c.outputRate + dropped * c.outputRate;
    QuotientUnique(position + dropped * c.outputRate, c.outputRate, q + dropped, r);
  }

  lemma SplitFrames<T>(c: Config, s: seq<T>, dropped: nat)
    requires c.Valid() && WholeFrames(c, s) && dropped <= Frames(c, s)
    ensures dropped * c.channels <= |s|
    ensures WholeFrames(c, s[dropped * c.channels..])
    ensures Frames(c, s[dropped * c.channels..]) == Frames(c, s) - dropped
  {
    MulMono(dropped, Frames(c, s), c.channels);
    assert |s| == Frames(c, s) * c.channels;
    assert (Frames(c, s) - dropped) * c.channels == |s| - dropped * c.channels;
    QuotientUnique(|s| - dropped * c.channels, c.channels, Frames(c, s) - dropped, 0);
  }

  lemma ShiftFrame<T>(lerp: Lerp<T>, c: Config, s: seq<T>, dropped: nat, position: nat)
    requires c.Valid() && WholeFrames(c, s) && dropped <= Frames(c, s)
    requires dropped * c.channels <= |s|
    requires Ceil(c, position) < Frames(c, s[dropped * c.channels..])
    ensures Ceil(c, position + dropped * c.outputRate) < Frames(c, s)
    ensures FrameAt(lerp, c, s[dropped * c.channels..], position)
         == FrameAt(lerp, c, s, position + dropped * c.outputRate)
  {
    SplitFrames(c, s, dropped);
    ShiftPosition(c, position, dropped);
    forall ch | 0 <= ch < c.channels
      ensures At(lerp, c, s[dropped * c.channels..], position, ch)
           == At(lerp, c, s, position + dropped * c.outputRate, ch)
    {
      ShiftSample(c, s, dropped, Floor(c, position), ch);
      ShiftSample(c, s, dropped, Ceil(c, position), ch);
    }
  }

  lemma ShiftSample<T>(c: Config, s: seq<T>, dropped: nat, frame: nat, channel: nat)
    requires c.Valid() && dropped * c.channels <= |s| && channel < c.channels
    requires frame < Frames(c, s[dropped * c.channels..]) && frame + dropped < Frames(c, s)
    ensures Sample(c, s[dropped * c.channels..], frame, channel) == Sample(c, s, frame + dropped, channel)
  {
    var start := dropped * c.channels;
    Distributes(frame, dropped, c.channels);
    InFrame(frame, Frames(c, s[start..]), channel, c.channels);
    DivMod(|s[start..]|, c.channels);
    SliceAt(s, start, frame * c.channels + channel);
  }

  lemma SliceAt<T>(s: seq<T>, start: nat, i: nat)
    requires start <= |s| && i < |s[start..]|
    ensures s[start..][i] == s[start + i]
  {
  }
}
