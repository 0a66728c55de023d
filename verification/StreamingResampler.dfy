/** The object that resamples piece by piece (`StreamingLinearAudioResampler`), and chunking independence. */
module StreamingResampler {
  import opened Options
  import opened PositionArithmetic
  import opened LinearResampler

  function CheckedAdd(a: nat, b: nat): Option<nat> {
    if a + b <= USIZE_MAX then Some(a + b) else None
  }

  function CheckedMul(a: nat, b: nat): Option<nat> {
    var product: nat := a * b;
    if product <= USIZE_MAX then Some(product) else None
  }

  /** The least a vector's storage can be after it has been asked to hold `needed` elements. */
  function Grown(capacity: nat, needed: nat): nat {
    if needed <= capacity then capacity else needed
  }

  /** How many more frames an input of `frames` frames may yield, scaling by the rates. */
  function ScaledFrames(c: Config, frames: nat): nat
    requires c.Valid()
  {
    frames * c.outputRate / c.inputRate
  }

  /** Room asked for before a call writes: `None` when the arithmetic would not fit in a `usize`. */
  function OutputCapacity(c: Config, inputSamples: nat): Option<nat>
    requires c.Valid()
  {
    var inputFrames := inputSamples / c.channels;
    if CheckedMul(inputFrames, c.outputRate).None? then None
    else
      var frames := CheckedAdd(ScaledFrames(c, inputFrames), INTERPOLATION_MARGIN_FRAMES);
      if frames.None? then None else CheckedMul(frames.value, c.channels)
  }

  /** The checks a call makes before it touches anything, in order. */
  function Refusal<T>(c: Config, input: seq<T>): Option<Error>
    requires c.Valid()
  {
    if |input| % c.channels != 0 then Some(IncompleteFrame(|input|, c.channels))
    else if OutputCapacity(c, |input|).None? then Some(CapacityOverflow)
    else None
  }

  /**
   A call is refused exactly for an incomplete frame, or when the input's frames times the output rate, or
   the room for the frames it may yield and two more, in samples, do not fit in 64 bits.
   */
  lemma RefusalExact<T>(c: Config, input: seq<T>)
    requires c.Valid()
    ensures Refusal(c, input) == Some(IncompleteFrame(|input|, c.channels)) <==> |input| % c.channels != 0
    ensures var n := |input| / c.channels * c.outputRate;
      && (Refusal(c, input) == Some(CapacityOverflow) <==>
            && |input| % c.channels == 0
            && (n >= 0x1_0000_0000_0000_0000 || (n / c.inputRate + 2) * c.channels >= 0x1_0000_0000_0000_0000))
      && (Refusal(c, input).None? ==> OutputCapacity(c, |input|) == Some((n / c.inputRate + 2) * c.channels))
  {
    MulMono(1, c.channels, |input| / c.channels * c.outputRate / c.inputRate + 2);
  }

  class StreamingLinearResampler<T> {
    const config: Config
    const lerp: Lerp<T>
    var buffered: seq<T>
    var nextPosition: nat
    /** Samples `buffered` can hold before its storage has to be reallocated. */
    var bufferCapacity: nat
    /** Everything fed so far, and how many of its frames have been dropped from the buffer. */
    ghost var fed: seq<T>
    ghost var dropped: nat

    ghost predicate Aligned()
      reads this
    {
      && config.Valid()
      && WholeFrames(config, fed)
      && dropped <= Frames(config, fed)
      && dropped * config.channels <= |fed|
      && buffered == fed[dropped * config.channels..]
      && WholeFrames(config, buffered)
    }

    /**
     Between calls every determined frame has been emitted, at most one frame is retained, and the
     next position is below the larger rate.
     */
    ghost predicate Valid()
      reads this
    {
      && Aligned()
      && |buffered| <= bufferCapacity
      && nextPosition + dropped * config.outputRate == Count(config, Frames(config, fed)) * config.inputRate
      && Frames(config, buffered) <= 1
      && (nextPosition < config.inputRate || nextPosition < config.outputRate)
    }

    constructor (config: Config, lerp: Lerp<T>)
      requires config.Valid()
      ensures Valid() && fed == [] && this.config == config && this.lerp == lerp && bufferCapacity == 0
    {
      this.config, this.lerp := config, lerp;
      buffered, nextPosition := [], 0;
      fed, dropped, bufferCapacity := [], 0, 0;
    }

    /** Sets aside room for one input of the given number of frames plus the interpolation margin. */
    method ReserveInput(frames: nat) returns (err: Option<Error>)
      requires Valid()
      modifies this`bufferCapacity
      ensures Valid()
      ensures err.None? <==> CheckedAdd(frames, INTERPOLATION_MARGIN_FRAMES).Some?
                             && CheckedMul(frames + INTERPOLATION_MARGIN_FRAMES, config.channels).Some?
      ensures err.None? ==> bufferCapacity >= (frames + INTERPOLATION_MARGIN_FRAMES) * config.channels
      ensures err.Some? ==> err.value == CapacityOverflow && unchanged(this)
    {
      var withMargin := CheckedAdd(frames, INTERPOLATION_MARGIN_FRAMES);
      var capacity := if withMargin.Some? then CheckedMul(withMargin.value, config.channels) else None;
      if capacity.None? {
        return Some(CapacityOverflow);
      }
      bufferCapacity := Grown(bufferCapacity, |buffered| + capacity.value);
      err := None;
    }

    /** `peak` is the furthest position the call reaches. */
    method ProcessInto(input: seq<T>, output: seq<T>) returns (err: Option<Error>, out: seq<T>, ghost peak: nat)
      requires Valid()
      modifies this
      ensures Valid()
      ensures err == Refusal(config, input)
      ensures err.Some? ==> unchanged(this) && out == output
      ensures err.None? ==> fed == old(fed) + input
      ensures err.None? ==> out == output + Emitted(old(fed), input)
      ensures err.None? ==> bufferCapacity == Grown(old(bufferCapacity), |old(buffered)| + |input|)
      ensures err.None? ==> |out| - |output| + config.channels <= OutputCapacity(config, |input|).value
      // In 64 bits no position wraps unless the input's frames times the output rate come within one
      // input rate of the largest number.
      ensures err.None? ==> old(nextPosition) <= peak && nextPosition <= peak
      ensures err.None? ==> peak <= Frames(config, input) * config.outputRate + config.inputRate
    {
      err, out, peak := Refusal(config, input), output, nextPosition;
      if err.Some? {
        return;
      }
      Extend(input);
      FramesAdd(config, old(fed), input);
      CapacityHolds(config, Frames(config, old(fed)), Frames(config, input));
      out := WriteFrames(Count(config, Frames(config, old(fed))), output);
      peak := nextPosition;
      SplitFrames(config, fed, dropped);
      FramesAdd(config, old(buffered), input);
      PeakBounded(config, Frames(config, fed), dropped, Frames(config, input), nextPosition);
      DiscardConsumedFrames();
      Rooms(config, Frames(config, old(fed)), Frames(config, input));
    }

    /** Writes every frame the buffer determines. */
    method WriteFrames(ghost before: nat, output: seq<T>) returns (out: seq<T>)
      requires Aligned() && before <= Count(config, Frames(config, fed))
      requires nextPosition + dropped * config.outputRate == before * config.inputRate
      modifies this`nextPosition
      ensures nextPosition + dropped * config.outputRate == Count(config, Frames(config, fed)) * config.inputRate
      ensures nextPosition >= old(nextPosition)
      ensures out == output + Direct(lerp, config, fed, before, Count(config, Frames(config, fed)))
    {
      ghost var made := before;
      out := output;
      while true
        invariant before <= made <= Count(config, Frames(config, fed))
        invariant nextPosition + dropped * config.outputRate == made * config.inputRate
        invariant nextPosition >= old(nextPosition)
        invariant out == output + Direct(lerp, config, fed, before, made)
        decreases Count(config, Frames(config, fed)) - made
      {
        Positions(made);
        var more;
        more, out := WriteNextFrame(out);
        if !more {
          break;
        }
        assert (made + 1) * config.inputRate == made * config.inputRate + config.inputRate;
        nextPosition := nextPosition + config.inputRate;
        made := made + 1;
      }
    }

    /** The output frames that `input` adds after `sofar`. */
    ghost function Emitted(sofar: seq<T>, input: seq<T>): (r: seq<T>)
      requires config.Valid() && WholeFrames(config, sofar)
    {
      FramesAdd(config, sofar, input);
      CountMono(config, Frames(config, sofar), Frames(config, sofar + input));
      Direct(lerp, config, sofar + input, Count(config, Frames(config, sofar)), Count(config, Frames(config, sofar + input)))
    }

    method Extend(input: seq<T>)
      requires Aligned() && WholeFrames(config, input)
      modifies this`buffered, this`bufferCapacity, this`fed
      ensures bufferCapacity == Grown(old(bufferCapacity), |buffered|)
      ensures Aligned() && fed == old(fed) + input && buffered == old(buffered) + input
    {
      FramesAdd(config, fed, input);
      FramesAdd(config, buffered, input);
      bufferCapacity := Grown(bufferCapacity, |buffered| + |input|);
      buffered := buffered + input;
      fed := fed + input;
    }

    /** Writes the frame at the current position, if the buffer determines it. */
    method WriteNextFrame(output: seq<T>) returns (more: bool, out: seq<T>)
      requires Aligned()
      ensures more <==> Ceil(config, nextPosition) < Frames(config, buffered)
      ensures out == if more then output + FrameAt(lerp, config, buffered, nextPosition) else output
    {
      var frameCount := |buffered| / config.channels;
      var frame := nextPosition / config.outputRate;
      var fraction := nextPosition % config.outputRate;
      out := output;
      if frame >= frameCount || (fraction != 0 && frame + 1 >= frameCount) {
        return false, out;
      }
      for channel := 0 to config.channels
        invariant out == output + FrameAt(lerp, config, buffered, nextPosition)[..channel]
      {
        var current := Sample(config, buffered, frame, channel);
        var nextFrame := frame + if fraction != 0 then 1 else 0;
        var next := Sample(config, buffered, nextFrame, channel);
        out := out + [lerp(current, next, fraction, config.outputRate)];
      }
      return true, out;
    }

    /** The buffer-relative test and frame agree with the one-shot ones. */
    lemma Positions(made: nat)
      requires Aligned() && nextPosition + dropped * config.outputRate == made * config.inputRate
      ensures Ceil(config, nextPosition) < Frames(config, buffered) <==> made < Count(config, Frames(config, fed))
      ensures Ceil(config, nextPosition) < Frames(config, buffered) ==>
        && Ceil(config, made * config.inputRate) < Frames(config, fed)
        && FrameAt(lerp, config, buffered, nextPosition) == FrameAt(lerp, config, fed, made * config.inputRate)
    {
      SplitFrames(config, fed, dropped);
      ShiftPosition(config, nextPosition, dropped);
      FrameReadable(config, Frames(config, fed), made);
      if Ceil(config, nextPosition) < Frames(config, buffered) {
        ShiftFrame(lerp, config, fed, dropped, nextPosition);
      }
    }

    method DiscardConsumedFrames()
      requires Aligned()
      requires nextPosition + dropped * config.outputRate == Count(config, Frames(config, fed)) * config.inputRate
      requires |buffered| <= bufferCapacity
      modifies this`buffered, this`nextPosition, this`dropped
      ensures Valid() && nextPosition <= old(nextPosition)
    {
      var availableFrames := |buffered| / config.channels;
      var quotient := nextPosition / config.outputRate;
      var consumedFrames := if quotient <= availableFrames then quotient else availableFrames;
      SplitFrames(config, fed, dropped);
      Discarded(config, Frames(config, fed), dropped, nextPosition);
      DropMore(config, fed, dropped, consumedFrames);
      buffered := buffered[consumedFrames * config.channels..];
      nextPosition := nextPosition - consumedFrames * config.outputRate;
      dropped := dropped + consumedFrames;
    }
  }

  lemma DropMore<T>(c: Config, s: seq<T>, dropped: nat, more: nat)
    requires c.Valid() && WholeFrames(c, s) && dropped + more <= Frames(c, s)
    ensures dropped * c.channels <= |s| && more * c.channels <= |s[dropped * c.channels..]|
    ensures (dropped + more) * c.channels <= |s|
    ensures s[dropped * c.channels..][more * c.channels..] == s[(dropped + more) * c.channels..]
    ensures WholeFrames(c, s[(dropped + more) * c.channels..])
    ensures Frames(c, s[(dropped + more) * c.channels..]) == Frames(c, s) - (dropped + more)
  {
    SplitFrames(c, s, dropped);
    SplitFrames(c, s, dropped + more);
    assert (dropped + more) * c.channels == dropped * c.channels + more * c.channels;
  }

  /** The buffer-relative discard computes the absolute one. */
  lemma Discarded(c: Config, n: nat, dropped: nat, position: nat)
    requires c.Valid() && dropped <= n && position + dropped * c.outputRate == Count(c, n) * c.inputRate
    ensures var quotient := position / c.outputRate;
            var consumed := if quotient <= n - dropped then quotient else n - dropped;
            var rest := position - consumed * c.outputRate;
            && n - (dropped + consumed) <= 1
            && 0 <= rest && (rest < c.inputRate || rest < c.outputRate)
            && rest + (dropped + consumed) * c.outputRate == Count(c, n) * c.inputRate
  {
    var quotient := position / c.outputRate;
    var consumed := if quotient <= n - dropped then quotient else n - dropped;
    ShiftPosition(c, position, dropped);
    Residue(c, n, position + dropped * c.outputRate, dropped + consumed);
    assert (dropped + consumed) * c.outputRate == dropped * c.outputRate + consumed * c.outputRate;
  }

  /** The next position is the first one past the last frame. */
  lemma FirstPast(c: Config, n: nat, p: nat)
    requires c.Valid() && n > 0 && p == Count(c, n) * c.inputRate
    ensures (n - 1) * c.outputRate < p <= (n - 1) * c.outputRate + c.inputRate
  {
    CountExact(c, n, Count(c, n));
    CountExact(c, n, Count(c, n) - 1);
    assert (Count(c, n) - 1) * c.inputRate == p - c.inputRate;
  }

  /** With at most one frame more than the input in the buffer, the position stays near the input's end. */
  lemma PeakBounded(c: Config, n: nat, dropped: nat, added: nat, p: nat)
    requires c.Valid() && p + dropped * c.outputRate == Count(c, n) * c.inputRate && dropped <= n <= dropped + added + 1
    ensures p <= added * c.outputRate + c.inputRate
  {
    if n > 0 {
      FirstPast(c, n, Count(c, n) * c.inputRate);
      MulMono(n - 1, dropped + added, c.outputRate);
      assert (dropped + added) * c.outputRate == dropped * c.outputRate + added * c.outputRate;
    }
  }

  /** After n frames, dropping what has been passed leaves at most one frame and a small position. */
  lemma Residue(c: Config, n: nat, p: nat, consumed: nat)
    requires c.Valid() && p == Count(c, n) * c.inputRate
    requires consumed == if p / c.outputRate <= n then p / c.outputRate else n
    ensures n - consumed <= 1 && consumed * c.outputRate <= p
    ensures p - consumed * c.outputRate < c.inputRate || p - consumed * c.outputRate < c.outputRate
  {
    FitsQuotient(consumed, c.outputRate, p);
    if n > 0 {
      FirstPast(c, n, p);
      FitsQuotient(n - 1, c.outputRate, p);
      FitsQuotient(n, c.outputRate, p);
      assert n * c.outputRate == (n - 1) * c.outputRate + c.outputRate;
    }
  }

  /** A call emits at least one frame fewer than the room it asks for. */
  lemma CapacityHolds(c: Config, before: nat, added: nat)
    requires c.Valid()
    ensures Count(c, before) <= Count(c, before + added)
    ensures Count(c, before + added) - Count(c, before) <= ScaledFrames(c, added) + 1
  {
    CountMono(c, before, before + added);
    var q := ScaledFrames(c, added);
    // Frame Count(before) + q + 1 is out of reach of before + added frames.
    FitsQuotient(q + 1, c.inputRate, added * c.outputRate);
    CountExact(c, before + added, Count(c, before) + (q + 1));
    CountExact(c, before, Count(c, before));
    OutOfReach(Count(c, before), q + 1, c.inputRate, before, added, c.outputRate);
  }

  lemma OutOfReach(count: nat, more: nat, inputRate: nat, before: nat, added: nat, outputRate: nat)
    requires added * outputRate < more * inputRate && (before > 0 ==> (before - 1) * outputRate < count * inputRate)
    ensures before + added > 0 ==> (before + added - 1) * outputRate < (count + more) * inputRate
  {
    Distributes(count, more, inputRate);
    if before > 0 {
      Distributes(before - 1, added, outputRate);
    } else if added > 0 {
      MulMono(added - 1, added, outputRate);
    }
  }

  lemma Rooms(c: Config, before: nat, added: nat)
    requires c.Valid() && Count(c, before) <= Count(c, before + added)
    ensures (Count(c, before + added) - Count(c, before)) * c.channels + c.channels
         <= (ScaledFrames(c, added) + INTERPOLATION_MARGIN_FRAMES) * c.channels
  {
    CapacityHolds(c, before, added);
    var n := Count(c, before + added) - Count(c, before) + 1;
    MulMono(n, ScaledFrames(c, added) + INTERPOLATION_MARGIN_FRAMES, c.channels);
    assert n * c.channels == (n - 1) * c.channels + c.channels;
  }

  // ----- Chunking independence -----

  function Join<T>(pieces: seq<seq<T>>): seq<T> {
    if pieces == [] then [] else Join(pieces[..|pieces| - 1]) + pieces[|pieces| - 1]
  }

  /** Feeding more input only appends to the one-shot result. */
  lemma ResampledGrows<T>(lerp: Lerp<T>, c: Config, s: seq<T>, t: seq<T>)
    requires c.Valid() && WholeFrames(c, s)
    ensures Count(c, Frames(c, s)) <= Count(c, Frames(c, s + t))
    ensures Resampled(lerp, c, s + t) ==
            Resampled(lerp, c, s) + Direct(lerp, c, s + t, Count(c, Frames(c, s)), Count(c, Frames(c, s + t)))
  {
    DirectExtends(lerp, c, s, t, 0, Count(c, Frames(c, s)));
    FramesAdd(c, s, t);
    CountMono(c, Frames(c, s), Frames(c, s + t));
    DirectJoin(lerp, c, s + t, 0, Count(c, Frames(c, s)), Count(c, Frames(c, s + t)));
  }

  /**
   Sample j of output frame k: with p = k * inputRate and q = p / outputRate, the interpolation of input
   frames q and, unless p falls on q, q + 1 on the same channel, at the fraction left over.
   */
  ghost predicate InterpolatedAt<T>(lerp: Lerp<T>, c: Config, s: seq<T>, out: seq<T>, k: nat, j: nat)
    requires c.Valid()
  {
    var p := k * c.inputRate;
    var q, fraction := p / c.outputRate, p % c.outputRate;
    var r := if fraction == 0 then q else q + 1;
    && 0 <= k * c.channels + j < |out| && 0 <= q * c.channels + j < |s| && 0 <= r * c.channels + j < |s|
    && out[k * c.channels + j] == lerp(s[q * c.channels + j], s[r * c.channels + j], fraction, c.outputRate)
  }

  /** The direct resample of a whole input, sample by sample: floor((n - 1) * outputRate / inputRate) + 1 frames. */
  ghost predicate IsDirectResample<T>(lerp: Lerp<T>, c: Config, s: seq<T>, out: seq<T>)
    requires c.Valid()
  {
    var n := |s| / c.channels;
    var count: nat := if n == 0 then 0 else (n - 1) * c.outputRate / c.inputRate + 1;
    && |out| == count * c.channels
    && forall k: nat, j: nat :: k < count && j < c.channels ==> InterpolatedAt(lerp, c, s, out, k, j)
  }

  lemma SampleOfResampled<T>(lerp: Lerp<T>, c: Config, s: seq<T>, k: nat, j: nat)
    requires c.Valid() && k < Count(c, Frames(c, s)) && j < c.channels
    ensures InterpolatedAt(lerp, c, s, Resampled(lerp, c, s), k, j)
  {
    var p := k * c.inputRate;
    ResampledAt(lerp, c, s, 0, Count(c, Frames(c, s)), k, j);
    DivMod(|s|, c.channels);
    InFrame(Floor(c, p), Frames(c, s), j, c.channels);
    InFrame(Ceil(c, p), Frames(c, s), j, c.channels);
  }

  lemma ResampledIsDirect<T>(lerp: Lerp<T>, c: Config, s: seq<T>)
    requires c.Valid()
    ensures IsDirectResample(lerp, c, s, Resampled(lerp, c, s))
  {
    forall k: nat, j: nat | k < Count(c, Frames(c, s)) && j < c.channels
      ensures InterpolatedAt(lerp, c, s, Resampled(lerp, c, s), k, j)
    {
      SampleOfResampled(lerp, c, s, k, j);
    }
  }

  /**
   A new resampler fed any cut of an input: it stops at the first piece it refuses, and otherwise has
   produced exactly the one-shot resample of the joined pieces, however they were cut.
   */
  method ResamplePieces<T>(config: Config, lerp: Lerp<T>, pieces: seq<seq<T>>) returns (err: Option<Error>, out: seq<T>)
    ensures err.None? <==> config.Valid() && forall i :: 0 <= i < |pieces| ==> Refusal(config, pieces[i]).None?
    ensures err.None? ==> WholeFrames(config, Join(pieces)) && out == Resampled(lerp, config, Join(pieces))
    ensures err.None? ==> IsDirectResample(lerp, config, Join(pieces), out)
  {
    out := [];
    if !config.Valid() {
      return Some(InvalidConfig(config)), out;
    }
    var resampler := new StreamingLinearResampler<T>(config, lerp);
    err := None;
    for i := 0 to |pieces|
      invariant resampler.Valid() && resampler.config == config && resampler.lerp == lerp
      invariant forall j :: 0 <= j < i ==> Refusal(config, pieces[j]).None?
      invariant resampler.fed == Join(pieces[..i]) && out == Resampled(lerp, config, resampler.fed)
      invariant err.None?
    {
      assert pieces[..i + 1][..i] == pieces[..i];
      ResampledGrows(lerp, config, resampler.fed, pieces[i]);
      ghost var peak;
      err, out, peak := resampler.ProcessInto(pieces[i], out);
      if err.Some? {
        return;
      }
    }
    assert pieces[..|pieces|] == pieces;
    ResampledIsDirect(lerp, config, Join(pieces));
  }

  /** The one-shot result, frame by frame: frame k interpolates the input at k * inputRate / outputRate. */
  lemma {:induction false} ResampledFrame<T>(lerp: Lerp<T>, c: Config, s: seq<T>, first: nat, last: nat, k: nat)
    requires c.Valid() && first <= k < last <= Count(c, Frames(c, s))
    ensures Ceil(c, k * c.inputRate) < Frames(c, s)
    ensures 0 <= (k - first) * c.channels <= (last - first) * c.channels - c.channels
    ensures Direct(lerp, c, s, first, last)[(k - first) * c.channels..][..c.channels] == FrameAt(lerp, c, s, k * c.inputRate)
    decreases last
  {
    FrameReadable(c, Frames(c, s), k);
    FrameReadable(c, Frames(c, s), last - 1);
    MulMono(k - first, last - 1 - first, c.channels);
    var all, init := Direct(lerp, c, s, first, last), Direct(lerp, c, s, first, last - 1);
    assert (last - first) * c.channels == |init| + c.channels;
    if k < last - 1 {
      ResampledFrame(lerp, c, s, first, last - 1, k);
      SliceOfPrefix(init, all, (k - first) * c.channels, c.channels);
    }
  }

  lemma SliceOfPrefix<T>(a: seq<T>, b: seq<T>, i: nat, n: nat)
    requires a <= b && i + n <= |a|
    ensures b[i..][..n] == a[i..][..n]
  {
    assert forall j :: 0 <= j < n ==> a[i..][..n][j] == a[i + j] == b[i + j];
  }

  /** And sample by sample. */
  lemma ResampledAt<T>(lerp: Lerp<T>, c: Config, s: seq<T>, first: nat, last: nat, k: nat, channel: nat)
    requires c.Valid() && first <= k < last <= Count(c, Frames(c, s)) && channel < c.channels
    ensures Ceil(c, k * c.inputRate) < Frames(c, s)
    ensures 0 <= (k - first) * c.channels + channel < (last - first) * c.channels
    ensures Direct(lerp, c, s, first, last)[(k - first) * c.channels + channel] == At(lerp, c, s, k * c.inputRate, channel)
  {
    ResampledFrame(lerp, c, s, first, last, k);
    var start: nat, frame := (k - first) * c.channels, FrameAt(lerp, c, s, k * c.inputRate);
    assert Direct(lerp, c, s, first, last)[start..][..c.channels][channel] == frame[channel];
  }
}
