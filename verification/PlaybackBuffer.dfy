/** The PCM ring buffer of the audio player, with its statistics-driven shrinking (`AudioBuffer`). */
module PlaybackBuffer {
  import opened PositionArithmetic

  const AUDIO_BUFFER_MS: nat := 3000
  const LEVELS: nat := 30
  const SCAN_INTERVAL_MS: int := 12000
  const DEFAULT_PER_SECOND: nat := 48000 * 2

  /** The generation counter is a `usize` and wraps. */
  const GENERATIONS: nat := 0x1_0000_0000_0000_0000

  /** A fill level that was sampled, and the samples per second the buffer was sized for at that time. */
  datatype Level = Level(having: nat, perSecond: nat) {
    predicate Valid() { perSecond > 0 }

    /** Its bin: tenths of a second, the last bin taking everything above. */
    function Bin(): (b: nat)
      requires Valid()
      ensures b < LEVELS
    {
      var i := having * 10 / perSecond;
      if i > 29 then 29 else i
    }
  }

  /** A bin below the last holds the levels of its tenth of a second; the last those from 2.9 seconds on. */
  lemma BinExact(level: Level, b: nat)
    requires level.Valid()
    ensures b < 29 ==> (level.Bin() == b <==> b * level.perSecond <= 10 * level.having < (b + 1) * level.perSecond)
    ensures level.Bin() == 29 <==> 29 * level.perSecond <= 10 * level.having
  {
    var x := level.having * 10;
    FitsQuotient(b, level.perSecond, x);
    FitsQuotient(b + 1, level.perSecond, x);
    FitsQuotient(29, level.perSecond, x);
  }

  // ----- What the statistics mean -----

  ghost predicate AllValid(seen: seq<Level>) {
    forall i :: 0 <= i < |seen| ==> seen[i].Valid()
  }

  /** How many of the sampled levels fell into bin b. */
  ghost function Hits(seen: seq<Level>, b: nat): nat
    requires AllValid(seen)
  {
    if seen == [] then 0
    else Hits(seen[..|seen| - 1], b) + if seen[|seen| - 1].Bin() == b then 1 else 0
  }

  /** Bin z is the lowest that was hit. */
  ghost predicate IsLowest(seen: seq<Level>, z: nat)
    requires AllValid(seen)
  {
    z < LEVELS && Hits(seen, z) > 0 && forall b: nat :: b < z ==> Hits(seen, b) == 0
  }

  /** Bin m is the first of those above bin 0 that was hit most often; 0 when none was hit at all. */
  ghost predicate IsTop(seen: seq<Level>, m: nat)
    requires AllValid(seen)
  {
    && m < LEVELS
    && (forall b: nat :: 1 <= b < LEVELS && m != 0 ==> Hits(seen, b) <= Hits(seen, m))
    && (forall b: nat :: 1 <= b < m ==> Hits(seen, b) < Hits(seen, m))
    && (m == 0 ==> forall b: nat :: 1 <= b < LEVELS ==> Hits(seen, b) == 0)
  }

  /** The water mark, in quarters of a bin: the most frequent bin, capped by two thirds of the lowest. */
  function Mark(lowest: nat, top: nat): nat {
    var zero := lowest * 2 / 3;
    if top > zero * 4 then zero * 4 else top
  }

  /** The number of samples a scan decides on: an even number, and none while the usual level is under 600 ms. */
  function Skip(capacity: nat, lowest: nat, top: nat): nat {
    if top < 6 then 0 else Even(MarkSamples(capacity, Mark(lowest, top)))
  }

  function MarkSamples(capacity: nat, mark: nat): nat {
    capacity * mark / 120
  }

  /** x if it is even, one more otherwise. */
  function Even(x: nat): (r: nat)
    ensures r % 2 == 0 && x <= r <= x + 1
  {
    (x + 1) / 2 * 2
  }

  /** What is dropped in the end: nothing unless more than three times that much is buffered. */
  function Dropped(held: nat, skip: nat): nat {
    if held > skip * 3 && skip > 0 then skip else 0
  }

  // ----- The bound on what shrinking may drop -----

  lemma {:induction false} HitPositive(seen: seq<Level>, i: nat)
    requires AllValid(seen) && i < |seen|
    ensures Hits(seen, seen[i].Bin()) > 0
  {
    if i < |seen| - 1 {
      HitPositive(seen[..|seen| - 1], i);
    }
  }

  /** k samples are at most two thirds of a level plus one sample, the level taken at the current rate. */
  ghost predicate WithinLevel(k: nat, perSecond: nat, level: Level) {
    3 * (k * level.perSecond) <= 2 * (level.having * perSecond) + 3 * level.perSecond
  }

  /**
   With the lowest bin as the water mark, a skip is even and at most two thirds of any level sampled in
   the period, plus one sample; and it is zero if any such level was under 200 ms.  A level sampled while
   the buffer was sized for another rate counts for the same time at the current one.
   */
  lemma SkipBounded(seen: seq<Level>, perSecond: nat, lowest: nat, top: nat, i: nat)
    requires AllValid(seen) && i < |seen| && IsLowest(seen, lowest)
    ensures Skip(3 * perSecond, lowest, top) % 2 == 0
    ensures WithinLevel(Skip(3 * perSecond, lowest, top), perSecond, seen[i])
    ensures seen[i].perSecond == perSecond ==> 3 * Skip(3 * perSecond, lowest, top) <= 2 * seen[i].having + 3
    ensures 5 * seen[i].having < seen[i].perSecond ==> Skip(3 * perSecond, lowest, top) == 0
  {
    var level, mark := seen[i], Mark(lowest, top);
    HitPositive(seen, i);
    assert lowest <= level.having * 10 / level.perSecond;
    FitsQuotient(lowest, level.perSecond, level.having * 10);
    MarkBounded(perSecond, lowest, mark, level);
    SkipScaled(Skip(3 * perSecond, lowest, top), MarkSamples(3 * perSecond, mark), perSecond, level);
    if 5 * level.having < level.perSecond && lowest >= 2 {
      MulMono(2, lowest, level.perSecond);
    }
  }

  /**
   What may be dropped of `held` samples against a level of the period: an even number, under a third of
   what is buffered, at most two thirds of that level plus one sample, and nothing if that level was under
   200 ms.  A level sampled before a resize counts for the same time at the current rate.
   */
  ghost predicate Allowed(k: nat, held: nat, perSecond: nat, level: Level) {
    && k % 2 == 0 && (k > 0 ==> 3 * k < held)
    && WithinLevel(k, perSecond, level)
    && (level.perSecond == perSecond ==> 3 * k <= 2 * level.having + 3)
    && (5 * level.having < level.perSecond ==> k == 0)
  }

  lemma DropAllowed(seen: seq<Level>, perSecond: nat, lowest: nat, top: nat, i: nat, held: nat)
    requires AllValid(seen) && i < |seen| && IsLowest(seen, lowest)
    ensures Allowed(Dropped(held, Skip(3 * perSecond, lowest, top)), held, perSecond, seen[i])
  {
    SkipBounded(seen, perSecond, lowest, top, i);
    ZeroWithin(perSecond, seen[i]);
  }

  /** The skip is the even one of the two numbers at the mark. */
  lemma SkipExact(capacity: nat, lowest: nat, top: nat, w: nat, d: nat)
    requires w == if top <= 4 * (2 * lowest / 3) then top else 4 * (2 * lowest / 3)
    requires d % 2 == 0 && capacity * w / 120 <= d <= capacity * w / 120 + 1
    ensures Skip(capacity, lowest, top) == if top < 6 then 0 else d
  {
    assert w == Mark(lowest, top);
    EvenUnique(MarkSamples(capacity, w), d);
  }

  lemma EvenUnique(x: nat, d: nat)
    requires d % 2 == 0 && x <= d <= x + 1
    ensures Even(x) == d
  {
  }

  /** A period has one lowest bin; and one first most frequent bin, as far as it matters. */
  lemma MarksUnique(seen: seq<Level>, z: nat, m: nat, lowest: nat, top: nat)
    requires AllValid(seen) && IsLowest(seen, z) && IsLowest(seen, lowest) && IsTop(seen, m) && IsTop(seen, top)
    ensures z == lowest && (m == top || (m < 6 && top < 6))
  {
    if m != top && (m >= 6 || top >= 6) {
      assert Hits(seen, 1) >= 0;
    }
  }

  lemma {:induction false} OneBin(seen: seq<Level>, b: nat)
    requires AllValid(seen) && seen != [] && forall i :: 0 <= i < |seen| ==> seen[i].Bin() == b
    ensures forall c: nat :: Hits(seen, c) == if c == b then |seen| else 0
    ensures IsLowest(seen, b) && (b > 0 ==> IsTop(seen, b))
  {
    if |seen| > 1 {
      OneBin(seen[..|seen| - 1], b);
    }
    assert seen[|seen| - 1].Bin() == b;
  }

  lemma ZeroWithin(perSecond: nat, level: Level)
    ensures WithinLevel(0, perSecond, level)
  {
  }

  lemma SkipScaled(skip: nat, mark: nat, perSecond: nat, level: Level)
    requires level.Valid() && skip <= mark + 1 && 3 * (mark * level.perSecond) <= 2 * (level.having * perSecond)
    ensures WithinLevel(skip, perSecond, level)
    ensures level.perSecond == perSecond ==> 3 * skip <= 2 * level.having + 3
  {
    MulMono(skip, mark + 1, level.perSecond);
    assert (mark + 1) * level.perSecond == mark * level.perSecond + level.perSecond;
    if level.perSecond == perSecond {
      SameRate(skip, level.having, perSecond);
    }
  }

  lemma SameRate(skip: nat, having: nat, rate: nat)
    requires rate > 0 && 3 * (skip * rate) <= 2 * (having * rate) + 3 * rate
    ensures 3 * skip <= 2 * having + 3
  {
    assert (2 * having + 3) * rate == 2 * (having * rate) + 3 * rate;
    assert 3 * skip * rate == 3 * (skip * rate);
    if 3 * skip > 2 * having + 3 {
      MulMono(2 * having + 4, 3 * skip, rate);
    }
  }

  lemma MarkBounded(perSecond: nat, lowest: nat, mark: nat, level: Level)
    requires lowest * level.perSecond <= 10 * level.having && 3 * mark <= 8 * lowest
    ensures 3 * (MarkSamples(3 * perSecond, mark) * level.perSecond) <= 2 * (level.having * perSecond)
  {
    var x, rate := MarkSamples(3 * perSecond, mark), level.perSecond;
    MarkQuarters(x, perSecond, mark);
    SamplesAtRate(x, perSecond, mark, rate);
    MarkAtRate(mark, lowest, rate, level.having);
    MulMono(3 * (mark * rate), 80 * level.having, perSecond);
    assert 80 * level.having * perSecond == 80 * (level.having * perSecond);
  }

  lemma MarkQuarters(x: nat, perSecond: nat, mark: nat)
    requires x == MarkSamples(3 * perSecond, mark)
    ensures 40 * x <= perSecond * mark
  {
    assert 3 * perSecond * mark == 3 * (perSecond * mark);
  }

  lemma SamplesAtRate(x: nat, perSecond: nat, mark: nat, rate: nat)
    requires 40 * x <= perSecond * mark
    ensures 120 * (x * rate) <= 3 * (mark * rate) * perSecond
  {
    MulMono(40 * x, perSecond * mark, rate);
    assert 40 * x * rate == 40 * (x * rate);
    assert perSecond * mark * rate == mark * rate * perSecond;
  }

  lemma MarkAtRate(mark: nat, lowest: nat, rate: nat, having: nat)
    requires lowest * rate <= 10 * having && 3 * mark <= 8 * lowest
    ensures 3 * (mark * rate) <= 80 * having
  {
    MulMono(3 * mark, 8 * lowest, rate);
    assert 3 * mark * rate == 3 * (mark * rate) && 8 * lowest * rate == 8 * (lowest * rate);
  }

  // ----- The object -----

  /** Twelve seconds after the last scan another is due; without one the clock is only started. */
  predicate ScanDue(lastScan: int, now: int) { lastScan != 0 && now >= lastScan + SCAN_INTERVAL_MS }

  function Rescheduled(lastScan: int, now: int): int { if lastScan == 0 || ScanDue(lastScan, now) then now else lastScan }

  /** The first use of the clock starts it; from then on scans are due from twelve seconds after the last one. */
  lemma ScansApart(t: int, now: int)
    ensures !ScanDue(0, now) && Rescheduled(0, now) == now
    ensures t != 0 ==> (ScanDue(t, now) <==> now - t >= 12_000) && Rescheduled(t, now) == if now - t >= 12_000 then now else t
  {
  }

  /** The time of the last scan is one static, shared by every buffer in the process. */
  class ScanClock {
    var lastScan: int

    /** Whether a scan is due; the first call only starts the clock. */
    method Due(now: int) returns (due: bool)
      modifies this
      ensures due == ScanDue(old(lastScan), now) && lastScan == Rescheduled(old(lastScan), now)
    {
      if lastScan == 0 {
        lastScan := now;
        return false;
      } else if now < lastScan + SCAN_INTERVAL_MS {
        return false;
      }
      lastScan := now;
      return true;
    }
  }

  function NextGeneration(g: nat): nat { if g + 1 == GENERATIONS then 0 else g + 1 }

  /** The generation counter after n signals. */
  function GenerationAfter(n: nat): nat {
    if n == 0 then 0 else NextGeneration(GenerationAfter(n - 1))
  }

  lemma {:induction false} GenerationsCounted(n: nat)
    ensures GenerationAfter(n) == n % GENERATIONS
  {
    if n > 0 {
      GenerationsCounted(n - 1);
    }
  }

  function Sum(s: seq<nat>): nat {
    if s == [] then 0 else Sum(s[..|s| - 1]) + s[|s| - 1]
  }

  /** The last `capacity` samples. */
  function Newest<T>(samples: seq<T>, capacity: nat): seq<T> {
    if |samples| <= capacity then samples else samples[|samples| - capacity..]
  }

  ghost predicate IsSuffix<T>(a: seq<T>, b: seq<T>) {
    |a| <= |b| && a == b[|b| - |a|..]
  }

  lemma SuffixGrows<T>(appended: seq<T>, ring: seq<T>, buffer: seq<T>, capacity: nat)
    requires IsSuffix(ring, appended)
    ensures IsSuffix(Newest(ring + buffer, capacity), appended + buffer)
  {
  }

  lemma SuffixShrinks<T>(appended: seq<T>, ring: seq<T>, k: nat)
    requires IsSuffix(ring, appended) && k <= |ring|
    ensures IsSuffix(ring[k..], appended)
  {
  }

  /** The discard an append is recorded with, if it overflows. */
  function Overflow(having: nat, capacity: nat): seq<nat> {
    if having <= capacity then [] else [having - capacity]
  }

  class AudioBuffer<T> {
    const clock: ScanClock
    const bins: array<nat>
    var ring: seq<T>
    var capacity: nat
    var perSecond: nat
    var generation: nat

    /** Levels sampled since this buffer's last scan. */
    ghost var seen: seq<Level>
    /** Everything ever appended, and where what is gone went. */
    ghost var appended: seq<T>
    ghost var consumed: nat
    ghost var drops: seq<nat>
    ghost var cleared: nat

    ghost predicate Valid()
      reads this, bins
    {
      && perSecond > 0 && capacity == 3 * perSecond && |ring| <= capacity
      && bins.Length == LEVELS
      && AllValid(seen)
      && (forall b :: 0 <= b < LEVELS ==> bins[b] == Hits(seen, b))
      // The ring is a suffix of everything appended, and every sample is accounted for.
      && IsSuffix(ring, appended)
      && consumed + Sum(drops) + cleared + |ring| == |appended|
      // One generation per discard, and no generation without one.
      && generation == GenerationAfter(|drops|) && (forall i :: 0 <= i < |drops| ==> drops[i] > 0)
    }

    constructor (clock: ScanClock)
      ensures Valid() && fresh(bins) && this.clock == clock && appended == [] && generation == 0
      ensures ring == [] && capacity == 288_000 && perSecond == 96_000 && seen == []
    {
      this.clock := clock;
      bins := new nat[LEVELS](i => 0);
      ring, capacity, perSecond, generation := [], DEFAULT_PER_SECOND * AUDIO_BUFFER_MS / 1000, DEFAULT_PER_SECOND, 0;
      seen, appended, consumed, drops, cleared := [], [], 0, [], 0;
    }

    /**
     A new size starts with an empty ring; nothing is signalled and the statistics are kept.  A ring of no
     capacity cannot be made: the call panics before anything has changed.
     */
    method Resize(sampleRate: nat, channels: nat) returns (panicked: bool)
      requires Valid()
      modifies this`ring, this`capacity, this`perSecond, this`cleared
      ensures Valid()
      ensures panicked <==> sampleRate * channels == 0
      ensures panicked ==> unchanged(this)
      ensures !panicked ==> perSecond == sampleRate * channels && capacity == 3 * perSecond
      ensures ring == if capacity == old(capacity) then old(ring) else []
      ensures cleared == old(cleared) + |old(ring)| - |ring|
    {
      var newPerSecond: nat := sampleRate * channels;
      var newCapacity := newPerSecond * AUDIO_BUFFER_MS / 1000;
      panicked := newCapacity != capacity && newCapacity == 0;
      if newCapacity != capacity && !panicked {
        cleared := cleared + |ring|;
        ring, capacity, perSecond := [], newCapacity, newPerSecond;
      }
    }

    /** Appends, overwriting the oldest samples; the ring keeps the last `capacity` of them. */
    method AppendPcm2(buffer: seq<T>) returns (occupied: nat)
      requires Valid()
      modifies this`ring, this`appended, this`generation, this`drops
      ensures Valid() && appended == old(appended) + buffer
      ensures ring == Newest(old(ring) + buffer, capacity) && occupied == |ring|
      ensures |ring| == if |old(ring)| + |buffer| <= capacity then |old(ring)| + |buffer| else capacity
      ensures drops == old(drops) + Overflow(|old(ring)| + |buffer|, capacity)
    {
      var having := |ring| + |buffer|;
      var all := ring + buffer;
      SuffixGrows(appended, ring, buffer, capacity);
      appended := appended + buffer;
      if having > capacity {
        ring := all[having - capacity..];
        SignalDiscontinuity(having - capacity);
      } else {
        ring := all;
      }
      occupied := |ring|;
    }

    method SignalDiscontinuity(ghost amount: nat)
      modifies this`generation, this`drops
      ensures generation == NextGeneration(old(generation)) && drops == old(drops) + [amount]
      ensures Sum(drops) == Sum(old(drops)) + amount
    {
      generation := NextGeneration(generation);
      drops := drops + [amount];
      assert drops[..|drops| - 1] == old(drops);
    }

    /** The player takes whole frames from the front. */
    method Consume(requested: nat, channels: nat) returns (samples: seq<T>)
      requires Valid() && channels > 0
      modifies this`ring, this`consumed
      ensures Valid() && samples + ring == old(ring) && consumed == old(consumed) + |samples|
      ensures |samples| <= requested && |samples| % channels == 0
      ensures requested - |samples| < channels || |old(ring)| - |samples| < channels
    {
      var available := if |ring| <= requested then |ring| else requested;
      var n := WholeFrames(available, channels);
      SuffixShrinks(appended, ring, n);
      samples, ring := ring[..n], ring[n..];
      consumed := consumed + n;
    }

    /** Records a level and, once per interval, scans the statistics and drops what they allow. */
    method TryShrink(having: nat, now: int)
      requires Valid()
      modifies this`ring, this`generation, this`drops, this`seen, bins, clock
      ensures Valid() && clock.lastScan == Rescheduled(old(clock.lastScan), now)
      ensures var all := old(seen) + [Level(having, perSecond)];
              if ScanDue(old(clock.lastScan), now)
              then seen == [] && Shrunk(all, old(ring), old(drops))
              else seen == all && ring == old(ring) && drops == old(drops)
    {
      Record(having);
      var due := clock.Due(now);
      if due {
        ScanAndDrop();
      }
    }

    method ScanAndDrop()
      requires Valid() && seen != []
      modifies this`ring, this`generation, this`drops, this`seen, bins
      ensures Valid() && seen == [] && Shrunk(old(seen), old(ring), old(drops))
    {
      var zero, max := Scan(bins, seen);
      seen := [];
      DropSamples(zero, max);
      assert IsLowest(old(seen), zero) && IsTop(old(seen), max);
    }

    /** Drops what the two bins found by the scan allow. */
    method DropSamples(lowest: nat, top: nat)
      requires Valid()
      modifies this`ring, this`generation, this`drops
      ensures Valid()
      ensures var k := Dropped(|old(ring)|, Skip(capacity, lowest, top));
              ring == old(ring)[k..] && drops == old(drops) + if k > 0 then [k] else []
    {
      if top < 6 {
        return;
      }
      var skip := SkipOf(capacity, lowest, top);
      if |ring| > skip * 3 && skip > 0 {
        SuffixShrinks(appended, ring, skip);
        ring := ring[skip..];
        SignalDiscontinuity(skip);
      }
    }

    /** The ring after a scan of the given levels. */
    ghost predicate Shrunk(all: seq<Level>, ring0: seq<T>, drops0: seq<nat>)
      requires AllValid(all)
      reads this
    {
      exists lowest: nat, top: nat :: IsLowest(all, lowest) && IsTop(all, top) &&
        var k := Dropped(|ring0|, Skip(capacity, lowest, top));
        ring == ring0[k..] && drops == drops0 + if k > 0 then [k] else []
    }

    /** What a scan dropped is allowed by every level of its period. */
    lemma DropBounded(all: seq<Level>, ring0: seq<T>, drops0: seq<nat>, i: nat)
      requires AllValid(all) && capacity == 3 * perSecond && Shrunk(all, ring0, drops0) && i < |all|
      ensures |ring| <= |ring0| && ring == ring0[|ring0| - |ring|..]
      ensures Allowed(|ring0| - |ring|, |ring0|, perSecond, all[i])
    {
      var lowest: nat, top: nat :| IsLowest(all, lowest) && IsTop(all, top) &&
        var k := Dropped(|ring0|, Skip(capacity, lowest, top));
        ring == ring0[k..] && drops == drops0 + if k > 0 then [k] else [];
      DropAllowed(all, perSecond, lowest, top, i, |ring0|);
    }

    /**
     Exactly what a scan drops.  With z the lowest bin hit in the period, m the first most frequent one and
     w the lesser of m and four times two thirds of z: nothing while m < 6; otherwise the even one, d, of
     the two numbers floor(capacity * w / 120) and one more, if it is not zero and more than three times as
     much is held.
     */
    lemma DropExact(all: seq<Level>, ring0: seq<T>, drops0: seq<nat>, z: nat, m: nat, w: nat, d: nat)
      requires AllValid(all) && Shrunk(all, ring0, drops0) && IsLowest(all, z) && IsTop(all, m)
      requires w == if m <= 4 * (2 * z / 3) then m else 4 * (2 * z / 3)
      requires d % 2 == 0 && capacity * w / 120 <= d <= capacity * w / 120 + 1
      ensures var dropping := m >= 6 && d > 0 && |ring0| > 3 * d;
              && ring == (if dropping then ring0[d..] else ring0)
              && drops == drops0 + (if dropping then [d] else [])
    {
      var lowest: nat, top: nat :| IsLowest(all, lowest) && IsTop(all, top) &&
        var k := Dropped(|ring0|, Skip(capacity, lowest, top));
        ring == ring0[k..] && drops == drops0 + if k > 0 then [k] else [];
      MarksUnique(all, z, m, lowest, top);
      SkipExact(capacity, lowest, top, w, d);
      assert ring0[0..] == ring0;
    }

    /**
     If every level of the period fell into one bin b from 6 on, and capacity * b / 120 rounded up to even is
     less than a third of what is held, exactly that much goes.
     */
    lemma SteadyDrop(all: seq<Level>, ring0: seq<T>, drops0: seq<nat>, b: nat, d: nat)
      requires AllValid(all) && all != [] && Shrunk(all, ring0, drops0)
      requires 6 <= b && forall i :: 0 <= i < |all| ==> all[i].Bin() == b
      requires d % 2 == 0 && capacity * b / 120 <= d <= capacity * b / 120 + 1 && 0 < 3 * d < |ring0|
      ensures ring == ring0[d..] && drops == drops0 + [d]
    {
      OneBin(all, b);
      DropExact(all, ring0, drops0, b, b, b, d);
    }

    method Record(having: nat)
      requires Valid()
      modifies this`seen, bins
      ensures Valid() && seen == old(seen) + [Level(having, perSecond)]
    {
      var i := BinOf(having, perSecond);
      Bump(bins, i, seen, Level(having, perSecond));
      seen := seen + [Level(having, perSecond)];
    }

    /**
     Appending: the ring is the newest samples of what it held and was given; their number is recorded as
     a level, and if a scan is due the ring is shrunk as the levels of the period, this one included, say.
     */
    method AppendPcm(buffer: seq<T>, now: int)
      requires Valid()
      modifies this`ring, this`appended, this`generation, this`drops, this`seen, bins, clock
      ensures Valid() && appended == old(appended) + buffer && clock.lastScan == Rescheduled(old(clock.lastScan), now)
      ensures var filled := Newest(old(ring) + buffer, capacity);
              var dropped := old(drops) + Overflow(|old(ring)| + |buffer|, capacity);
              var all := old(seen) + [Level(|filled|, perSecond)];
              if ScanDue(old(clock.lastScan), now)
              then seen == [] && Shrunk(all, filled, dropped)
              else seen == all && ring == filled && drops == dropped
    {
      var having := AppendPcm2(buffer);
      TryShrink(having, now);
    }
  }

  /** The bin of a level. */
  method BinOf(having: nat, perSecond: nat) returns (i: nat)
    requires perSecond > 0
    ensures i == Level(having, perSecond).Bin()
  {
    i := having * 10 / perSecond;
    if i > 29 {
      i := 29;
    }
  }

  /** One more level is one more hit, in its bin. */
  lemma HitsMore(seen: seq<Level>, level: Level, b: nat)
    requires AllValid(seen) && level.Valid()
    ensures AllValid(seen + [level])
    ensures Hits(seen + [level], b) == Hits(seen, b) + if level.Bin() == b then 1 else 0
  {
    assert (seen + [level])[..|seen|] == seen;
  }

  method Bump(bins: array<nat>, i: nat, ghost seen: seq<Level>, ghost level: Level)
    requires bins.Length == LEVELS && AllValid(seen) && level.Valid() && i == level.Bin()
    requires forall b :: 0 <= b < LEVELS ==> bins[b] == Hits(seen, b)
    modifies bins
    ensures AllValid(seen + [level])
    ensures forall b :: 0 <= b < LEVELS ==> bins[b] == Hits(seen + [level], b)
  {
    forall b: nat | b < LEVELS
      ensures AllValid(seen + [level]) && Hits(seen + [level], b) == Hits(seen, b) + if i == b then 1 else 0
    {
      HitsMore(seen, level, b);
    }
    bins[i] := bins[i] + 1;
  }

  /** The skip, for a usual level of 600 ms or more. */
  method SkipOf(capacity: nat, lowest: nat, top: nat) returns (skip: nat)
    requires top >= 6
    ensures skip == Skip(capacity, lowest, top)
  {
    var zero, max := lowest * 2 / 3, top;
    if max > zero * 4 {
      max := zero * 4;
    }
    assert max == Mark(lowest, top);
    var x := capacity * max / 120;
    assert x == MarkSamples(capacity, max);
    skip := (x + 1) / 2 * 2;
  }

  /** The most samples not exceeding n that make up whole frames. */
  method WholeFrames(n: nat, channels: nat) returns (samples: nat)
    requires channels > 0
    ensures samples <= n && samples % channels == 0 && n - samples < channels
  {
    samples := n / channels * channels;
    FitsQuotient(n / channels, channels, n);
    QuotientUnique(samples, channels, n / channels, 0);
  }

  /**
   The scan.  It clears every bin while looking at them; bin 0 is cleared before it can be chosen, so
   the most frequent bin is sought among 1..29 only.
   */
  method Scan(bins: array<nat>, ghost seen: seq<Level>) returns (zero: nat, max: nat)
    requires bins.Length == LEVELS && AllValid(seen) && seen != []
    requires forall b :: 0 <= b < LEVELS ==> bins[b] == Hits(seen, b)
    modifies bins
    ensures forall b :: 0 <= b < LEVELS ==> bins[b] == 0
    ensures IsLowest(seen, zero) && IsTop(seen, max)
  {
    zero, max := 0, 0;
    for i := 0 to LEVELS
      invariant zero <= i && (forall b: nat :: b < zero ==> Hits(seen, b) == 0)
      invariant zero < i ==> Hits(seen, zero) > 0
      invariant i == 0 ==> max == 0
      invariant i > 0 ==> max < i
      invariant forall b :: i <= b < LEVELS ==> bins[b] == Hits(seen, b)
      invariant forall b :: 0 <= b < i && b != max ==> bins[b] == 0
      invariant i > 0 ==> bins[max] == if max == 0 then 0 else Hits(seen, max)
      invariant forall b: nat :: 1 <= b < i ==> Hits(seen, b) <= if max == 0 then 0 else Hits(seen, max)
      invariant forall b: nat :: 1 <= b < max ==> Hits(seen, b) < Hits(seen, max)
    {
      if bins[i] == 0 && zero == i {
        zero := zero + 1;
      }
      if bins[i] > bins[max] {
        bins[max] := 0;
        max := i;
      } else {
        bins[i] := 0;
      }
    }
    bins[max] := 0;
    HitPositive(seen, 0);
  }
}
