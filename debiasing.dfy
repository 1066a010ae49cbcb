/** The entropy collector over a sequence of timer ticks: the sampler, a
    debiasing extractor that waits for a transition between samples,
    separated from the mixer that consumes its output. */
module Debiasing {
  import opened Mixer
  import opened Firmware

  /** The state after one timer tick per port B level in `pins`, in order. */
  function Ticks(s: Registers, pins: seq<bv8>): (t: Registers)
    // only the entropy side changes
    ensures t.bytesToSend == s.bytesToSend && t.usidr == s.usidr && t.usiClock == s.usiClock
    ensures t.usiOverflow == s.usiOverflow && t.wireMode == s.wireMode
    decreases |pins|
  {
    if pins == [] then s else Ticks(TimerStep(s, pins[0]), pins[1..])
  }

  /** The bits the sampler hands to the mixer, starting from latch `latch`. */
  function Debias(latch: bv8, pins: seq<bv8>): (bits: seq<bv8>)
    // each bit is a real sample value
    ensures latch == Sentinel || latch <= 1 ==> forall i :: 0 <= i < |bits| ==> bits[i] <= 1
    // and uses up two samples, counting a pending latch as one of them
    ensures 2 * |bits| <= |pins| + (if latch == Sentinel then 0 else 1)
    decreases |pins|
  {
    if pins == [] then []
    else if latch != Sample(pins[0]) && latch != Sentinel then [latch] + Debias(Sentinel, pins[1..])
    else Debias(Sample(pins[0]), pins[1..])
  }

  /** The latch after the samples `pins`, starting from `latch`. */
  function LatchAfter(latch: bv8, pins: seq<bv8>): (l: bv8)
    ensures pins != [] ==> l == Sentinel || l <= 1
    decreases |pins|
  {
    if pins == [] then latch
    else if latch != Sample(pins[0]) && latch != Sentinel then LatchAfter(Sentinel, pins[1..])
    else LatchAfter(Sample(pins[0]), pins[1..])
  }

  /** The register after a run of ticks depends only on its value before and
      the ordered debiased bits: sampling and mixing factor apart. */
  lemma {:induction false} TicksFactor(s: Registers, pins: seq<bv8>)
    ensures Ticks(s, pins).randomNumber == MixAll(s.randomNumber, Debias(s.lastbit, pins))
    ensures Ticks(s, pins).lastbit == LatchAfter(s.lastbit, pins)
    decreases |pins|
  {
    if pins != [] {
      var t := TimerStep(s, pins[0]);
      TicksFactor(t, pins[1..]);
      if Mixes(s, pins[0]) {
        assert Debias(s.lastbit, pins) == [s.lastbit] + Debias(Sentinel, pins[1..]);
        assert ([s.lastbit] + Debias(Sentinel, pins[1..]))[1..] == Debias(Sentinel, pins[1..]);
      }
    }
  }

  // ---------------------------------------------------------------------
  // A reference description of the extractor: "wait for a transition".
  // ---------------------------------------------------------------------

  /** How many leading samples of `pins` equal `b`. */
  function RunLength(b: bv8, pins: seq<bv8>): (n: nat)
    ensures n <= |pins|
    ensures forall i :: 0 <= i < n ==> Sample(pins[i]) == b
    ensures n < |pins| ==> Sample(pins[n]) != b
    decreases |pins|
  {
    if pins == [] || Sample(pins[0]) != b then 0 else 1 + RunLength(b, pins[1..])
  }

  /** The samples split into runs of equal values; each run that is ended by
      a different sample emits its own value, and the ending sample is
      consumed with it. A final run that has not ended emits nothing.
      This is "wait for a transition", not the classic extractor over
      non-overlapping pairs: 0,0,1,1 emits 0 here, where the pairs (0,0)
      and (1,1) would emit nothing (see `FourSamples`). */
  function TransitionExtractor(pins: seq<bv8>): (bits: seq<bv8>)
    ensures forall i :: 0 <= i < |bits| ==> bits[i] <= 1
    ensures 2 * |bits| <= |pins|
    decreases |pins|
  {
    if pins == [] then []
    else
      var b := Sample(pins[0]);
      var k := 1 + RunLength(b, pins[1..]);
      if k == |pins| then [] else [b] + TransitionExtractor(pins[k + 1..])
  }

  /** With a sample `b` pending, the sampler emits `b` when the run of `b`s
      ends, and resumes empty after the sample that ended it. */
  lemma {:induction false} PendingRun(b: bv8, pins: seq<bv8>)
    requires b <= 1
    ensures Debias(b, pins) ==
              var n := RunLength(b, pins);
              if n == |pins| then [] else [b] + Debias(Sentinel, pins[n + 1..])
    decreases |pins|
  {
    if pins != [] && Sample(pins[0]) == b {
      assert Debias(b, pins) == Debias(b, pins[1..]);
      assert RunLength(b, pins) == 1 + RunLength(b, pins[1..]);
      PendingRun(b, pins[1..]);
      if RunLength(b, pins) < |pins| {
        assert pins[1..][RunLength(b, pins[1..]) + 1..] == pins[RunLength(b, pins) + 1..];
      }
    }
  }

  /** From an empty latch, the firmware's sampler is exactly the reference
      extractor. */
  lemma {:induction false} DebiasIsTransitionExtractor(pins: seq<bv8>)
    ensures Debias(Sentinel, pins) == TransitionExtractor(pins)
    decreases |pins|
  {
    if pins != [] {
      var b := Sample(pins[0]);
      PendingRun(b, pins[1..]);
      var k := 1 + RunLength(b, pins[1..]);
      if k < |pins| {
        assert pins[1..][RunLength(b, pins[1..]) + 1..] == pins[k + 1..];
        DebiasIsTransitionExtractor(pins[k + 1..]);
      }
    }
  }

  /** From power-on, the register after any run of ticks is the seed with
      the reference extractor's output mixed in. */
  lemma TicksFromPowerOn(pins: seq<bv8>)
    ensures Ticks(PowerOn(), pins).randomNumber == MixAll(Seed, TransitionExtractor(pins))
    ensures Ticks(PowerOn(), pins).randomNumber < Bound
  {
    TicksFactor(PowerOn(), pins);
    DebiasIsTransitionExtractor(pins);
  }

  /** A constant noise level produces no bits at all, so the register stays
      as it was. */
  lemma ConstantNoiseMixesNothing(pins: seq<bv8>)
    requires forall i :: 0 <= i < |pins| ==> Sample(pins[i]) == Sample(pins[0])
    ensures TransitionExtractor(pins) == []
  {
  }

  /** The samples 0,0,1,1 emit one bit, 0: the run 0,0 is ended by a 1. */
  lemma FourSamples()
    ensures TransitionExtractor([0x00, 0x00, 0x10, 0x10]) == [0]
  {
  }

  /** The samples 0,0,0,1,1,0 from an empty latch emit two bits, 0 then 1:
      the first run of 0s is ended by a 1, and the next pair 1,0 differs. */
  lemma SixSamples()
    ensures Debias(Sentinel, [0x00, 0x00, 0x00, 0x10, 0x10, 0x00]) == [0, 1]
  {
  }

  /** Port B levels that present each bit `b` as the sample pair b, not b. */
  function PairSamples(bits: seq<bv8>): (pins: seq<bv8>)
    requires forall i :: 0 <= i < |bits| ==> bits[i] <= 1
    ensures |pins| == 2 * |bits|
    decreases |bits|
  {
    if bits == [] then [] else [bits[0] << 4, (bits[0] ^ 1) << 4] + PairSamples(bits[1..])
  }

  /** The extractor can emit any bit sequence: each pair of differing
      samples emits its first sample. */
  lemma {:induction false} ExtractorEmitsAny(bits: seq<bv8>)
    requires forall i :: 0 <= i < |bits| ==> bits[i] <= 1
    ensures TransitionExtractor(PairSamples(bits)) == bits
    decreases |bits|
  {
    if bits != [] {
      var pins, b := PairSamples(bits), bits[0];
      assert Sample(pins[0]) == b && Sample(pins[1]) != b;
      assert RunLength(b, pins[1..]) == 0;
      assert pins[2..] == PairSamples(bits[1..]);
      ExtractorEmitsAny(bits[1..]);
    }
  }

  /** From power-on, 50 timer ticks can leave the register at zero. */
  lemma SeedReachesZero()
    ensures Ticks(PowerOn(), PairSamples(CancelPath(Seed, 25))).randomNumber == 0
  {
    var bits := CancelPath(Seed, 25);
    TicksFromPowerOn(PairSamples(bits));
    ExtractorEmitsAny(bits);
    SeedCanReachZero();
  }
}
