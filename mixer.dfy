/** The entropy mixer of the firmware: a 25-bit feedback shift register kept
    in the low bits of the 32-bit global `randomNumber`. Each debiased bit
    shifts the register right by one place and enters at bit 24, XORed with
    the two taps at bits 0 and 3. */
module Mixer {

  /** 2^25: a register value below this bound has no bit set above bit 24. */
  const Bound: bv32 := 0x200_0000

  /** Power-on value of the register: the 25-bit pattern 1010...101. */
  const Seed: bv32 := 0x155_5555

  /** Bit `i` of `x`, as the value 0 or 1. */
  function BitOf(x: bv32, i: bv32): (b: bv32)
    requires i < 32
    ensures b <= 1
  {
    (x >> i) & 1
  }

  /** The `mixInBit` macro: the new register value after folding `bit` in.
      Only the lowest bit of `bit` takes part. */
  function MixInBit(rn: bv32, bit: bv8): (r: bv32)
    // bits 0..23 are the old bits 1..24, whatever the register held
    ensures forall i: bv32 :: i < 24 ==> BitOf(r, i) == BitOf(rn, i + 1)
    // a 25-bit register stays a 25-bit register
    ensures rn < Bound ==> r < Bound
    // and its new top bit is the input bit XOR the taps at bits 0 and 3
    ensures rn < Bound ==> BitOf(r, 24) == ((bit as bv32) ^ BitOf(rn, 0) ^ BitOf(rn, 3)) & 1
  {
    (rn >> 1) | ((((bit as bv32) ^ (rn >> 0) ^ (rn >> 3)) & 1) << 24)
  }

  /** The register value that mixing `bit` into turns into `r`: the inverse
      of MixInBit on 25-bit registers for a fixed input bit. */
  function UnmixBit(r: bv32, bit: bv8): (rn: bv32)
    ensures rn < Bound
    ensures forall i: bv32 :: i < 24 ==> BitOf(rn, i + 1) == BitOf(r, i)
  {
    ((r << 1) & (Bound - 2)) | (((bit as bv32) ^ (r >> 24) ^ (r >> 2)) & 1)
  }

  /** Mixing loses no state: the previous 25-bit register is recoverable
      from the new one and the bit that was mixed in. */
  lemma UnmixAfterMix(rn: bv32, bit: bv8)
    requires rn < Bound
    ensures UnmixBit(MixInBit(rn, bit), bit) == rn
  {
  }

  /** Every 25-bit register value is reached by mixing a given bit into
      exactly one predecessor, so for a fixed bit the mixer is a bijection. */
  lemma MixAfterUnmix(r: bv32, bit: bv8)
    requires r < Bound
    ensures MixInBit(UnmixBit(r, bit), bit) == r
  {
  }

  /** Mixing an ordered sequence of bits into the register, first bit first. */
  function MixAll(rn: bv32, bits: seq<bv8>): (r: bv32)
    ensures rn < Bound ==> r < Bound
    decreases |bits|
  {
    if bits == [] then rn else MixAll(MixInBit(rn, bits[0]), bits[1..])
  }

  /** Mixing two sequences one after the other is mixing their concatenation. */
  lemma {:induction false} MixAllAppend(rn: bv32, xs: seq<bv8>, ys: seq<bv8>)
    ensures MixAll(rn, xs + ys) == MixAll(MixAll(rn, xs), ys)
    decreases |xs|
  {
    if xs == [] {
      assert xs + ys == ys;
    } else {
      assert (xs + ys)[0] == xs[0];
      assert (xs + ys)[1..] == xs[1..] + ys;
      MixAllAppend(MixInBit(rn, xs[0]), xs[1..], ys);
    }
  }

  /** Two registers that receive the same bits stay distinct: no two 25-bit
      starting values are merged by any input sequence. */
  lemma {:induction false} MixAllInjective(a: bv32, b: bv32, bits: seq<bv8>)
    requires a < Bound && b < Bound
    requires MixAll(a, bits) == MixAll(b, bits)
    ensures a == b
    decreases |bits|
  {
    if bits != [] {
      MixAllInjective(MixInBit(a, bits[0]), MixInBit(b, bits[0]), bits[1..]);
      UnmixAfterMix(a, bits[0]);
      UnmixAfterMix(b, bits[0]);
    }
  }

  /** The register can become zero: the value 1 with the bit 1 mixed in. */
  lemma MixCanReachZero()
    ensures MixInBit(1, 1) == 0
  {
  }

  /** The input bit that cancels the two taps of `rn`, so that mixing it in
      enters a 0 at bit 24. */
  function CancelBit(rn: bv32): (bit: bv8)
    ensures bit <= 1
    ensures MixInBit(rn, bit) == rn >> 1
  {
    ((rn ^ (rn >> 3)) & 1) as bv8
  }

  /** `k` cancelling bits, each chosen for the register as it then stands. */
  function CancelPath(rn: bv32, k: nat): (bits: seq<bv8>)
    ensures |bits| == k
    ensures forall i :: 0 <= i < |bits| ==> bits[i] <= 1
    decreases k
  {
    if k == 0 then [] else [CancelBit(rn)] + CancelPath(rn >> 1, k - 1)
  }

  /** The register shifted right by one place, `k` times. */
  function Drained(rn: bv32, k: nat): bv32
    decreases k
  {
    if k == 0 then rn else Drained(rn >> 1, k - 1)
  }

  /** Mixing in `k` cancelling bits shifts the register right `k` times. */
  lemma {:induction false} CancelPathDrains(rn: bv32, k: nat)
    ensures MixAll(rn, CancelPath(rn, k)) == Drained(rn, k)
    decreases k
  {
    if k > 0 {
      var bits := CancelPath(rn, k);
      assert bits[0] == CancelBit(rn) && bits[1..] == CancelPath(rn >> 1, k - 1);
      CancelPathDrains(rn >> 1, k - 1);
    }
  }

  /** Shifting `j` times and then `k` times is shifting `j + k` times. */
  lemma {:induction false} DrainedAdd(rn: bv32, j: nat, k: nat)
    ensures Drained(rn, j + k) == Drained(Drained(rn, j), k)
    decreases j
  {
    if j > 0 {
      DrainedAdd(rn >> 1, j - 1, k);
    }
  }

  /** The seed is driven to zero by 25 cancelling bits: no non-zero
      invariant holds for the register, whatever its starting value. */
  lemma SeedCanReachZero()
    ensures MixAll(Seed, CancelPath(Seed, 25)) == 0
  {
    CancelPathDrains(Seed, 25);
    DrainedAdd(Seed, 5, 20);
    DrainedAdd(0xA_AAAA, 5, 15);
    DrainedAdd(0x5555, 5, 10);
    DrainedAdd(0x2AA, 5, 5);
    SeedDrainSteps();
  }

  /** The seed's value after each five shifts. */
  lemma SeedDrainSteps()
    ensures Drained(Seed, 5) == 0xA_AAAA && Drained(0xA_AAAA, 5) == 0x5555
    ensures Drained(0x5555, 5) == 0x2AA && Drained(0x2AA, 5) == 0x15 && Drained(0x15, 5) == 0
  {
    assert Drained(0x5555, 5) == Drained(0x2AAA, 4);
  }
}
