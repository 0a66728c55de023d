/** `FixedFrameAudioResampler`: resampled audio cut into packets of a fixed number of frames. */
module Packetizer {
  import opened Options
  import opened PositionArithmetic
  import opened LinearResampler
  import opened StreamingResampler

  const PENDING_PACKET_CAPACITY: nat := 2

  /** The input frames one output packet needs, rounded up. */
  function InputFrames(c: Config, outputFrames: nat): nat
    requires c.Valid()
  {
    (outputFrames * c.inputRate + (c.outputRate - 1)) / c.outputRate
  }

  /** Room reserved for samples that do not fill a packet yet, in frames. */
  function PendingFrames(outputFrames: nat): nat {
    outputFrames * PENDING_PACKET_CAPACITY + INTERPOLATION_MARGIN_FRAMES
  }

  /** Room asked for, in frames, when an input arrives while `pending` frames are waiting. */
  function Needed(c: Config, pending: nat, frames: nat): nat
    requires c.Valid()
  {
    pending + (ScaledFrames(c, frames) + INTERPOLATION_MARGIN_FRAMES)
  }

  /** Everything the constructor of the packetizer checks, in the source's order. */
  function SetupError(c: Config, outputFrames: nat): Option<Error> {
    if outputFrames == 0 then Some(InvalidOutputFrameSize(outputFrames))
    else if !c.Valid() then Some(InvalidConfig(c))
    else if CheckedMul(outputFrames, c.channels).None? then Some(CapacityOverflow)
    else if CheckedMul(outputFrames, c.inputRate).None? then Some(CapacityOverflow)
    else if CheckedMul(outputFrames * c.channels, PENDING_PACKET_CAPACITY).None? then Some(CapacityOverflow)
    else if CheckedAdd(outputFrames * c.channels * PENDING_PACKET_CAPACITY, c.channels * INTERPOLATION_MARGIN_FRAMES).None?
    then Some(CapacityOverflow)
    else if CheckedAdd(InputFrames(c, outputFrames), INTERPOLATION_MARGIN_FRAMES).None? then Some(CapacityOverflow)
    else if CheckedMul(InputFrames(c, outputFrames) + INTERPOLATION_MARGIN_FRAMES, c.channels).None? then Some(CapacityOverflow)
    else None
  }

  /** The fewest input frames that last as long as a packet. */
  lemma InputFramesExact(c: Config, outputFrames: nat, frames: nat)
    requires c.Valid()
    ensures InputFrames(c, outputFrames) <= frames <==> outputFrames * c.inputRate <= frames * c.outputRate
  {
    var x := outputFrames * c.inputRate + (c.outputRate - 1);
    FitsQuotient(frames + 1, c.outputRate, x);
    Distributes(frames, 1, c.outputRate);
  }

  /**
   A packetizer is made exactly when nothing is zero and three products fit in 64 bits: twice a packet
   and the margin, in samples; the packet's frames times the input rate; the input of a packet and the
   margin, in samples.
   */
  lemma SetupExact(c: Config, outputFrames: nat)
    ensures SetupError(c, outputFrames).None? <==>
      && outputFrames > 0 && c.inputRate > 0 && c.outputRate > 0 && c.channels > 0
      && (2 * outputFrames + 2) * c.channels < 0x1_0000_0000_0000_0000
      && outputFrames * c.inputRate < 0x1_0000_0000_0000_0000
      && (InputFrames(c, outputFrames) + 2) * c.channels < 0x1_0000_0000_0000_0000
    ensures SetupError(c, outputFrames) == Some(InvalidOutputFrameSize(outputFrames)) <==> outputFrames == 0
    ensures SetupError(c, outputFrames) == Some(InvalidConfig(c)) <==>
      outputFrames > 0 && (c.inputRate == 0 || c.outputRate == 0 || c.channels == 0)
  {
    if outputFrames > 0 && c.Valid() {
      assert (2 * outputFrames + 2) * c.channels == outputFrames * c.channels * 2 + c.channels * 2;
      MulMono(1, c.channels, InputFrames(c, outputFrames) + 2);
    }
  }

  /** Cuts whole packets off the front; what is left does not fill one. */
  method CutPackets<T>(size: nat, samples: seq<T>) returns (packets: seq<seq<T>>, rest: seq<T>)
    requires size > 0
    ensures Join(packets) + rest == samples
    ensures forall p :: p in packets ==> |p| == size
    ensures |rest| < size && |packets| * size + |rest| == |samples|
  {
    var start := 0;
    packets := [];
    while |samples| - start >= size
      invariant start <= |samples|
      invariant Join(packets) == samples[..start]
      invariant forall p :: p in packets ==> |p| == size
    {
      var packet := samples[start..start + size];
      assert (packets + [packet])[..|packets|] == packets;
      packets := packets + [packet];
      start := start + size;
    }
    JoinLength(size, packets);
    var complete := |samples| / size * size;
    QuotientUnique(|samples|, size, |packets|, |samples| - start);
    rest := samples[complete..];
  }

  lemma {:induction false} JoinLength<T>(size: nat, packets: seq<seq<T>>)
    requires forall p :: p in packets ==> |p| == size
    ensures |Join(packets)| == |packets| * size
  {
    if packets != [] {
      var init := packets[..|packets| - 1];
      JoinLength(size, init);
      AddFrames(|init|, 1, size);
    }
  }

  class FixedFrameResampler<T> {
    const resampler: StreamingLinearResampler<T>
    const outputFrames: nat
    const outputSamples: nat
    var pending: seq<T>
    var pendingCapacity: nat
    /** All packets handed out so far, joined; and the frames in `pending`. */
    ghost var emitted: seq<T>
    ghost var pendingFrames: nat

    ghost predicate Valid()
      reads this, resampler
    {
      var c := resampler.config;
      && resampler.Valid()
      // Conservation: packets and pending samples are the raw resampler output.
      && emitted + pending == Resampled(resampler.lerp, c, resampler.fed)
      && outputSamples == outputFrames * c.channels
      && |pending| == pendingFrames * c.channels
      && pendingFrames < outputFrames && |pending| < outputSamples
      && PendingFrames(outputFrames) * c.channels <= pendingCapacity
      && (InputFrames(c, outputFrames) + INTERPOLATION_MARGIN_FRAMES) * c.channels <= resampler.bufferCapacity
    }

    constructor (config: Config, lerp: Lerp<T>, outputFrames: nat)
      requires SetupError(config, outputFrames).None?
      ensures Valid() && fresh(resampler) && resampler.fed == [] && emitted == []
      ensures resampler.config == config && resampler.lerp == lerp && this.outputFrames == outputFrames
      ensures outputSamples == outputFrames * config.channels
      ensures pendingCapacity == PendingFrames(outputFrames) * config.channels
    {
      var inner := new StreamingLinearResampler<T>(config, lerp);
      var err := inner.ReserveInput(InputFrames(config, outputFrames));
      PendingRoom(outputFrames, config.channels);
      MulMono(1, outputFrames, config.channels);
      resampler, this.outputFrames, outputSamples := inner, outputFrames, outputFrames * config.channels;
      pending, emitted, pendingFrames := [], [], 0;
      pendingCapacity := outputFrames * config.channels * PENDING_PACKET_CAPACITY + config.channels * INTERPOLATION_MARGIN_FRAMES;
    }

    /** The output frames that feeding adds. */
    ghost function Added(before: seq<T>, after: seq<T>): int
      requires resampler.config.Valid()
    {
      Count(resampler.config, Frames(resampler.config, after)) - Count(resampler.config, Frames(resampler.config, before))
    }

    /** One call: either refused with nothing changed, or every whole packet is handed out in order. */
    method ProcessWith(input: seq<T>) returns (err: Option<Error>, packets: seq<seq<T>>)
      requires Valid()
      modifies this, resampler
      ensures Valid()
      ensures err == Refusal(resampler.config, input)
      ensures err.Some? ==> unchanged(this) && unchanged(resampler) && packets == []
      ensures err.None? ==> resampler.fed == old(resampler.fed) + input
      ensures err.None? ==> emitted == old(emitted) + Join(packets)
      ensures forall p :: p in packets ==> |p| == outputSamples
      ensures err.None? ==> pendingFrames + |packets| * outputFrames == old(pendingFrames) + Added(old(resampler.fed), resampler.fed)
      // The pending buffer grows exactly when more room is needed than it has; an input of one packet's
      // length never outgrows the input buffer.
      ensures err.None? ==> pendingCapacity == Grown(old(pendingCapacity),
        Needed(resampler.config, old(pendingFrames), Frames(resampler.config, input)) * resampler.config.channels)
      ensures Frames(resampler.config, input) <= InputFrames(resampler.config, outputFrames) ==>
        resampler.bufferCapacity == old(resampler.bufferCapacity)
    {
      var samples;
      ghost var frames;
      err, samples, frames := Feed(input);
      packets := [];
      if err.None? {
        packets := Deal(samples, frames);
      }
    }

    /** One call in a run; `grew` when the pending buffer had less room than was needed. */
    method Turn(inputs: seq<seq<T>>, i: nat) returns (err: Option<Error>, packets: seq<seq<T>>, grew: bool)
      requires Valid() && i < |inputs| && resampler.fed == Join(inputs[..i])
      requires pendingFrames == Waiting(resampler.config, outputFrames, inputs, i)
      modifies this, resampler
      ensures Valid() && err == Refusal(resampler.config, inputs[i])
      ensures err.None? ==> resampler.fed == Join(inputs[..i + 1]) && emitted == old(emitted) + Join(packets)
      ensures forall p :: p in packets ==> |p| == outputSamples
      ensures err.None? ==> pendingFrames == Waiting(resampler.config, outputFrames, inputs, i + 1)
      ensures err.None? && old(pendingCapacity) == PendingFrames(outputFrames) * resampler.config.channels ==>
        (Short(resampler.config, outputFrames, inputs) ==> (grew <==> Outgrown(resampler.config, outputFrames, inputs, i)))
      ensures !grew ==> pendingCapacity == old(pendingCapacity)
    {
      assert inputs[..i + 1][..i] == inputs[..i];
      Larger(Needed(resampler.config, pendingFrames, Frames(resampler.config, inputs[i])), PendingFrames(outputFrames),
             resampler.config.channels);
      var before := (pendingCapacity, resampler.bufferCapacity);
      err, packets := ProcessWith(inputs[i]);
      grew := before != (pendingCapacity, resampler.bufferCapacity);
      if err.None? {
        RestOf(Count(resampler.config, Frames(resampler.config, old(resampler.fed))),
               Added(old(resampler.fed), resampler.fed), |packets|, outputFrames, pendingFrames);
      }
    }

    /** The first i calls of a run are done. */
    ghost predicate Midway(inputs: seq<seq<T>>, i: nat, packets: seq<seq<T>>, reallocated: bool)
      reads this, resampler
    {
      && Valid() && i <= |inputs|
      && resampler.fed == Join(inputs[..i]) && emitted == Join(packets)
      && pendingFrames == Waiting(resampler.config, outputFrames, inputs, i)
      && (forall p :: p in packets ==> |p| == outputSamples)
      && (!reallocated ==> pendingCapacity == PendingFrames(outputFrames) * resampler.config.channels)
      && (Short(resampler.config, outputFrames, inputs) ==>
            (reallocated <==> exists j :: 0 <= j < i && Outgrown(resampler.config, outputFrames, inputs, j)))
    }

    method Advance(inputs: seq<seq<T>>, i: nat, packets: seq<seq<T>>, reallocated: bool)
      returns (err: Option<Error>, packets': seq<seq<T>>, reallocated': bool)
      requires Midway(inputs, i, packets, reallocated) && i < |inputs|
      modifies this, resampler
      ensures Valid() && err == Refusal(resampler.config, inputs[i])
      ensures err.None? ==> Midway(inputs, i + 1, packets', reallocated')
      ensures forall p :: p in packets' ==> |p| == outputSamples
    {
      var more, grew;
      err, more, grew := Turn(inputs, i);
      JoinAppend(packets, more);
      packets', reallocated' := packets + more, reallocated || grew;
    }

    /** A run of calls on a new packetizer, up to the first one refused. */
    method ProcessAll(inputs: seq<seq<T>>) returns (err: Option<Error>, packets: seq<seq<T>>, reallocated: bool)
      requires Valid() && resampler.fed == [] && emitted == []
      requires pendingCapacity == PendingFrames(outputFrames) * resampler.config.channels
      modifies this, resampler
      ensures Valid()
      ensures err.None? <==> forall i :: 0 <= i < |inputs| ==> Refusal(resampler.config, inputs[i]).None?
      ensures err.None? ==> resampler.fed == Join(inputs) && emitted == Join(packets)
      ensures forall p :: p in packets ==> |p| == outputSamples
      ensures err.None? && Short(resampler.config, outputFrames, inputs) ==>
        (reallocated <==> exists i :: 0 <= i < |inputs| && Outgrown(resampler.config, outputFrames, inputs, i))
    {
      err, packets, reallocated := None, [], false;
      NothingWaiting();
      for i := 0 to |inputs|
        invariant err.None? && Midway(inputs, i, packets, reallocated)
        invariant forall j :: 0 <= j < i ==> Refusal(resampler.config, inputs[j]).None?
      {
        err, packets, reallocated := Advance(inputs, i, packets, reallocated);
        if err.Some? {
          return;
        }
      }
      assert inputs[..|inputs|] == inputs;
    }

    /** A new packetizer has nothing pending. */
    lemma NothingWaiting()
      requires Valid() && resampler.fed == []
      ensures pendingFrames == 0
    {
      assert Resampled(resampler.lerp, resampler.config, []) == [];
      assert |pending| == 0;
      MulMono(1, resampler.config.channels, pendingFrames);
    }

    /** Appends what the input yields to the pending samples. */
    method Feed(input: seq<T>) returns (err: Option<Error>, samples: seq<T>, ghost frames: nat)
      requires Valid()
      modifies this`pendingCapacity, resampler
      ensures resampler.Valid() && err == Refusal(resampler.config, input)
      ensures err.Some? ==> unchanged(this) && unchanged(resampler)
      ensures err.None? ==> resampler.fed == old(resampler.fed) + input
      ensures err.None? ==> emitted + samples == Resampled(resampler.lerp, resampler.config, resampler.fed)
      ensures err.None? ==> |samples| == frames * resampler.config.channels
      ensures err.None? ==> frames == pendingFrames + Added(old(resampler.fed), resampler.fed)
      ensures resampler.bufferCapacity >= old(resampler.bufferCapacity)
      ensures err.None? ==> pendingCapacity == Grown(old(pendingCapacity),
        Needed(resampler.config, pendingFrames, Frames(resampler.config, input)) * resampler.config.channels)
      ensures Frames(resampler.config, input) <= InputFrames(resampler.config, outputFrames) ==>
        resampler.bufferCapacity == old(resampler.bufferCapacity)
    {
      var c := resampler.config;
      frames := 0;
      if Refusal(c, input).None? {
        InputFits(c, outputFrames, resampler.buffered, input, resampler.bufferCapacity);
      }
      ghost var peak;
      err, samples, peak := resampler.ProcessInto(input, pending);
      if err.Some? {
        return;
      }
      ResampledGrows(resampler.lerp, c, old(resampler.fed), input);
      ghost var added := Count(c, Frames(c, resampler.fed)) - Count(c, Frames(c, old(resampler.fed)));
      AddFrames(pendingFrames, added, c.channels);
      frames := pendingFrames + added;
      AddFrames(pendingFrames, ScaledFrames(c, Frames(c, input)) + INTERPOLATION_MARGIN_FRAMES, c.channels);
      pendingCapacity := Grown(pendingCapacity, |pending| + OutputCapacity(c, |input|).value);
    }

    /** Hands out the whole packets and keeps the rest. */
    method Deal(samples: seq<T>, ghost frames: nat) returns (packets: seq<seq<T>>)
      requires outputFrames > 0 && resampler.config.channels > 0 && outputSamples == outputFrames * resampler.config.channels
      requires |samples| == frames * resampler.config.channels
      modifies this`pending, this`emitted, this`pendingFrames
      ensures emitted == old(emitted) + Join(packets) && emitted + pending == old(emitted) + samples
      ensures |pending| == pendingFrames * resampler.config.channels && |pending| < outputSamples
      ensures pendingFrames == frames - |packets| * outputFrames < outputFrames
      ensures forall p :: p in packets ==> |p| == outputSamples
    {
      MulMono(1, outputFrames, resampler.config.channels);
      packets, pending := CutPackets(outputSamples, samples);
      CutFrames(frames, resampler.config.channels, outputFrames, |packets|, |pending|);
      pendingFrames := frames - |packets| * outputFrames;
      emitted := emitted + Join(packets);
    }
  }

  /** No input is longer than one packet needs. */
  ghost predicate Short<T>(c: Config, outputFrames: nat, inputs: seq<seq<T>>)
    requires c.Valid()
  {
    forall i :: 0 <= i < |inputs| ==> Frames(c, inputs[i]) <= InputFrames(c, outputFrames)
  }

  /** The frames pending when input i arrives: what the output so far leaves beyond whole packets. */
  ghost function Waiting<T>(c: Config, outputFrames: nat, inputs: seq<seq<T>>, i: nat): nat
    requires c.Valid() && outputFrames > 0 && i <= |inputs|
  {
    Count(c, Frames(c, Join(inputs[..i]))) % outputFrames
  }

  /** Input i, arriving after those before it, needs more room than was reserved. */
  ghost predicate Outgrown<T>(c: Config, outputFrames: nat, inputs: seq<seq<T>>, i: nat)
    requires c.Valid() && outputFrames > 0 && i < |inputs|
  {
    Needed(c, Waiting(c, outputFrames, inputs, i), Frames(c, inputs[i])) > PendingFrames(outputFrames)
  }

  lemma Larger(a: nat, b: nat, m: nat)
    requires m > 0
    ensures a > b <==> a * m > b * m
  {
    if a > b {
      MulMono(b + 1, a, m);
      assert (b + 1) * m == b * m + m;
    } else {
      MulMono(a, b, m);
    }
  }

  /**
   A whole capture session.  Unless something is refused, the packets joined with the samples left
   over are the one-shot resample of everything captured, in packets of exactly the agreed size; and
   with inputs no longer than a packet needs, a buffer is reallocated exactly when some input finds too
   little room, which at up to twice the rate never happens.
   */
  method PacketizeAll<T>(config: Config, lerp: Lerp<T>, outputFrames: nat, inputs: seq<seq<T>>)
    returns (err: Option<Error>, packets: seq<seq<T>>, rest: seq<T>, reallocated: bool)
    ensures SetupError(config, outputFrames).Some? ==> err == SetupError(config, outputFrames)
    ensures SetupError(config, outputFrames).None? ==>
      (err.None? <==> forall i :: 0 <= i < |inputs| ==> Refusal(config, inputs[i]).None?)
    ensures err.None? ==> config.Valid() && WholeFrames(config, Join(inputs))
    ensures err.None? ==> Join(packets) + rest == Resampled(lerp, config, Join(inputs))
    ensures err.None? ==> IsDirectResample(lerp, config, Join(inputs), Join(packets) + rest)
    ensures err.None? ==> |rest| < outputFrames * config.channels
    ensures err.None? ==> forall p :: p in packets ==> |p| == outputFrames * config.channels
    ensures err.None? && Short(config, outputFrames, inputs) ==>
      (reallocated <==> exists i :: 0 <= i < |inputs| && Outgrown(config, outputFrames, inputs, i))
    ensures err.None? && Short(config, outputFrames, inputs) && config.outputRate <= 2 * config.inputRate ==> !reallocated
  {
    packets, rest, reallocated := [], [], false;
    err := SetupError(config, outputFrames);
    if err.None? {
      var machine := new FixedFrameResampler<T>(config, lerp, outputFrames);
      err, packets, reallocated := machine.ProcessAll(inputs);
      rest := machine.pending;
      ResampledIsDirect(lerp, config, Join(inputs));
      if config.outputRate <= 2 * config.inputRate {
        NoReallocation(config, outputFrames, inputs);
      }
    }
  }

  lemma {:induction false} JoinAppend<T>(a: seq<seq<T>>, b: seq<seq<T>>)
    ensures Join(a + b) == Join(a) + Join(b)
  {
    if b == [] {
      assert a + b == a;
    } else {
      var init := b[..|b| - 1];
      JoinAppend(a, init);
      assert (a + b)[..|a + b| - 1] == a + init;
    }
  }

  lemma PendingRoom(outputFrames: nat, channels: nat)
    ensures outputFrames * channels * PENDING_PACKET_CAPACITY + channels * INTERPOLATION_MARGIN_FRAMES
         == PendingFrames(outputFrames) * channels
  {
  }

  /** Samples held in whole frames are still so after whole packets have been cut off. */
  lemma CutFrames(frames: nat, channels: nat, outputFrames: nat, packets: nat, rest: nat)
    requires channels > 0 && packets * (outputFrames * channels) + rest == frames * channels
    requires rest < outputFrames * channels
    ensures 0 <= frames - packets * outputFrames < outputFrames
    ensures rest == (frames - packets * outputFrames) * channels
  {
    var left := frames - packets * outputFrames;
    assert packets * (outputFrames * channels) == packets * outputFrames * channels;
    assert left * channels == rest;
    if left >= outputFrames {
      MulMono(outputFrames, left, channels);
    }
  }

  lemma AddFrames(a: nat, b: nat, channels: nat)
    ensures a * channels + b * channels == (a + b) * channels
  {
  }

  /** What is left after k packets is the count's remainder. */
  lemma RestOf(before: nat, added: int, k: nat, n: nat, rest: nat)
    requires n > 0 && rest < n && before % n + added == rest + k * n && before + added >= 0
    ensures rest == (before + added) % n
  {
    var q := before / n;
    assert before == q * n + before % n;
    assert (q + k) * n == q * n + k * n;
    QuotientUnique(before + added, n, q + k, rest);
  }

  /** Inputs of at most one packet's worth of frames never outgrow the input buffer reserved at construction. */
  lemma InputFits<T>(c: Config, outputFrames: nat, buffered: seq<T>, input: seq<T>, bufferCapacity: nat)
    requires c.Valid() && WholeFrames(c, buffered) && WholeFrames(c, input) && Frames(c, buffered) <= 1
    requires (InputFrames(c, outputFrames) + INTERPOLATION_MARGIN_FRAMES) * c.channels <= bufferCapacity
    ensures Frames(c, input) <= InputFrames(c, outputFrames) ==> Grown(bufferCapacity, |buffered| + |input|) == bufferCapacity
  {
    if Frames(c, input) <= InputFrames(c, outputFrames) {
      AddFrames(Frames(c, buffered), Frames(c, input), c.channels);
      MulMono(Frames(c, buffered) + Frames(c, input), InputFrames(c, outputFrames) + INTERPOLATION_MARGIN_FRAMES, c.channels);
    }
  }

  // ----- When the room reserved for pending samples is enough -----

  /** Whatever is pending and whichever input of at most one packet's length arrives, the reserved room will do. */
  ghost predicate Suffices(c: Config, outputFrames: nat)
    requires c.Valid()
  {
    forall pending: nat, frames: nat ::
      pending < outputFrames && frames <= InputFrames(c, outputFrames) ==> Needed(c, pending, frames) <= PendingFrames(outputFrames)
  }

  /** Exactly when a full-length input scales to at most one frame more than a packet. */
  lemma ReservationExact(c: Config, outputFrames: nat)
    requires c.Valid() && outputFrames > 0
    ensures Suffices(c, outputFrames) <==> ScaledFrames(c, InputFrames(c, outputFrames)) <= outputFrames + 1
  {
    var most := InputFrames(c, outputFrames);
    if ScaledFrames(c, most) <= outputFrames + 1 {
      forall pending: nat, frames: nat | pending < outputFrames && frames <= most
        ensures Needed(c, pending, frames) <= PendingFrames(outputFrames)
      {
        ScaledMono(c, frames, most);
      }
    } else {
      assert Needed(c, outputFrames - 1, most) > PendingFrames(outputFrames);
    }
  }

  lemma ScaledMono(c: Config, a: nat, b: nat)
    requires c.Valid() && a <= b
    ensures ScaledFrames(c, a) <= ScaledFrames(c, b)
  {
    MulMono(a, b, c.outputRate);
    FitsQuotient(ScaledFrames(c, a), c.inputRate, a * c.outputRate);
    FitsQuotient(ScaledFrames(c, a), c.inputRate, b * c.outputRate);
  }

  /** At up to twice the rate the room is enough for every packet size. */
  lemma TwiceSuffices(c: Config, outputFrames: nat)
    requires c.Valid() && outputFrames > 0 && c.outputRate <= 2 * c.inputRate
    ensures Suffices(c, outputFrames)
  {
    var most := InputFrames(c, outputFrames);
    FitsQuotient(most, c.outputRate, outputFrames * c.inputRate + (c.outputRate - 1));
    assert (outputFrames + 2) * c.inputRate == outputFrames * c.inputRate + 2 * c.inputRate;
    FitsQuotient(outputFrames + 2, c.inputRate, most * c.outputRate);
    ReservationExact(c, outputFrames);
  }

  /** So no session of inputs of at most one packet's length outgrows it. */
  lemma NoReallocation<T>(c: Config, outputFrames: nat, inputs: seq<seq<T>>)
    requires c.Valid() && outputFrames > 0 && c.outputRate <= 2 * c.inputRate
    ensures Short(c, outputFrames, inputs) ==> forall i :: 0 <= i < |inputs| ==> !Outgrown(c, outputFrames, inputs, i)
  {
    TwiceSuffices(c, outputFrames);
  }

  /** Beyond twice the rate, packets of two frames fewer than the output rate need all input frames of a second. */
  lemma LongPacket(c: Config)
    requires c.Valid() && c.outputRate > 2 * c.inputRate
    ensures InputFrames(c, c.outputRate - 2) == c.inputRate && ScaledFrames(c, c.inputRate) == c.outputRate
  {
    var x := (c.outputRate - 2) * c.inputRate + (c.outputRate - 1);
    assert x == c.inputRate * c.outputRate + (c.outputRate - 1 - 2 * c.inputRate);
    QuotientUnique(x, c.outputRate, c.inputRate, c.outputRate - 1 - 2 * c.inputRate);
    QuotientUnique(c.inputRate * c.outputRate, c.inputRate, c.outputRate, 0);
  }

  /** Twice the rate is the exact bound for the room to be enough whatever the packet size. */
  lemma RateBoundExact(c: Config)
    requires c.Valid()
    ensures (forall n: nat :: n > 0 ==> Suffices(c, n)) <==> c.outputRate <= 2 * c.inputRate
  {
    if c.outputRate <= 2 * c.inputRate {
      forall n: nat | n > 0
        ensures Suffices(c, n)
      {
        TwiceSuffices(c, n);
      }
    } else {
      LongPacket(c);
      ReservationExact(c, c.outputRate - 2);
    }
  }

  /** One frame, and then a second's worth of frames at a time. */
  ghost predicate FrameThenSeconds<T>(c: Config, inputs: seq<seq<T>>)
    requires c.Valid()
  {
    forall i :: 0 <= i < |inputs| ==> WholeFrames(c, inputs[i]) && Frames(c, inputs[i]) == if i == 0 then 1 else c.inputRate
  }

  lemma {:induction false} FedSoFar<T>(c: Config, inputs: seq<seq<T>>, k: nat)
    requires c.Valid() && FrameThenSeconds(c, inputs) && 1 <= k <= |inputs|
    ensures WholeFrames(c, Join(inputs[..k])) && Frames(c, Join(inputs[..k])) == 1 + (k - 1) * c.inputRate
  {
    assert inputs[..k][..k - 1] == inputs[..k - 1];
    if k == 1 {
      assert Join(inputs[..1]) == Join(inputs[..0]) + inputs[0] == inputs[0];
    } else {
      FedSoFar(c, inputs, k - 1);
      FramesAdd(c, Join(inputs[..k - 1]), inputs[k - 1]);
      Distributes(k - 2, 1, c.inputRate);
    }
  }

  /**
   The bound is not only one of arithmetic: beyond twice the rate there is a packet size with which a
   session of inputs no longer than a packet needs does outgrow the room, on its last input.
   */
  lemma OutgrownSession<T>(c: Config, inputs: seq<seq<T>>)
    requires c.Valid() && c.outputRate > 2 * c.inputRate
    requires FrameThenSeconds(c, inputs) && |inputs| == c.outputRate - 1
    ensures Short(c, c.outputRate - 2, inputs) && Outgrown(c, c.outputRate - 2, inputs, c.outputRate - 2)
  {
    var n := c.outputRate - 2;
    LongPacket(c);
    FedSoFar(c, inputs, n);
    LevelReached(c, n);
  }

  /** After one frame and n - 1 seconds, one frame is missing to a packet. */
  lemma LevelReached(c: Config, n: nat)
    requires c.Valid() && n > 0 && c.outputRate == n + 2
    ensures Count(c, 1 + (n - 1) * c.inputRate) % n == n - 1
  {
    CountSeconds(c, n - 1);
    OneShort(n);
  }

  lemma CountSeconds(c: Config, m: nat)
    requires c.Valid()
    ensures Count(c, 1 + m * c.inputRate) == m * c.outputRate + 1
  {
    var q := m * c.outputRate;
    assert m * c.inputRate * c.outputRate == q * c.inputRate;
    QuotientUnique(q * c.inputRate, c.inputRate, q, 0);
  }

  lemma OneShort(n: nat)
    requires n > 0
    ensures ((n - 1) * (n + 2) + 1) % n == n - 1
  {
    var x := (n - 1) * (n + 2) + 1;
    assert x == n * n + (n - 1);
    QuotientUnique(x, n, n, n - 1);
  }
}
