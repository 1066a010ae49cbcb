/** The firmware's interrupt handlers as atomic events on its global state.

    The state is the three globals of the program (`BytesToSend`,
    `randomNumber`, `lastbit`) and the hardware register bits the handlers
    touch: the USI data register `USIDR`, the 4-bit clock counter and the
    overflow flag of `USISR`, the wire-mode bit `USIWM0` of `USICR`, and the
    timer-1 overflow flag `TOV1`. `Registers` is a snapshot of that state;
    `TimerStep`, `SerialStep` and `PinChangeStep` say what each handler does
    to a snapshot, and `Device` is the same state updated in place. */
module Firmware {
  import opened Mixer

  /** The value of `lastbit` that means "no sample waiting for its pair". */
  const Sentinel: bv8 := 255

  datatype Registers = Registers(
    bytesToSend: bv8,    // BytesToSend: bytes the master still asked for
    randomNumber: bv32,  // the random register
    lastbit: bv8,        // the sample latch: 0, 1 or Sentinel
    usidr: bv8,          // USIDR: received byte in, outgoing byte out
    usiClock: bv8,       // USICNT3..0, the USI 4-bit clock counter
    usiOverflow: bool,   // USIOIF pending
    wireMode: bool,      // USIWM0 set: the USI drives the three-wire (SPI) mode
    timerOverflow: bool  // TOV1 pending
  )

  /** What every reachable state satisfies. */
  predicate Invariant(s: Registers) {
    && (s.lastbit == Sentinel || s.lastbit <= 1)
    && s.randomNumber < Bound
    && s.bytesToSend <= 2
    && s.usiClock < 16
  }

  /** The state when interrupts are first enabled: the globals hold their
      initial values and the USI is configured without a wire mode. */
  function PowerOn(): (s: Registers)
    ensures Invariant(s)
    ensures s.lastbit == Sentinel && s.bytesToSend == 0 && !s.wireMode
  {
    Registers(0, Seed, Sentinel, 0, 0, false, false, false)
  }

  // ---------------------------------------------------------------------
  // Timer-1 overflow: sample the noise pin and debias.
  // ---------------------------------------------------------------------

  /** The noise sample: bit 4 of port B's input register, moved to bit 0. */
  function Sample(pinb: bv8): (b: bv8)
    ensures b <= 1
    ensures b == 1 <==> (pinb & 0x10) != 0
  {
    (pinb & (1 << 4)) >> 4
  }

  /** A timer tick mixes exactly when a real sample is pending and the new
      sample differs from it. */
  predicate Mixes(s: Registers, pinb: bv8) {
    s.lastbit != Sample(pinb) && s.lastbit != Sentinel
  }

  /** The timer-overflow handler. Both reads of the pin are taken to see the
      same level `pinb`. */
  function TimerStep(s: Registers, pinb: bv8): (t: Registers)
    // the latch holds a bit or is empty
    ensures t.lastbit == Sentinel || t.lastbit <= 1
    // it is left empty exactly after a mix
    ensures t.lastbit == Sentinel <==> Mixes(s, pinb)
    // a mix folds in the PREVIOUS sample; otherwise the register is kept
    // and the new sample waits in the latch
    ensures Mixes(s, pinb) ==> t.randomNumber == MixInBit(s.randomNumber, s.lastbit)
    ensures !Mixes(s, pinb) ==> t.randomNumber == s.randomNumber && t.lastbit == Sample(pinb)
    // nothing of the transport changes and the timer flag is cleared
    ensures t == s.(randomNumber := t.randomNumber, lastbit := t.lastbit, timerOverflow := false)
    ensures Invariant(s) ==> Invariant(t)
  {
    if Mixes(s, pinb) then
      s.(randomNumber := MixInBit(s.randomNumber, s.lastbit), lastbit := Sentinel, timerOverflow := false)
    else
      s.(lastbit := Sample(pinb), timerOverflow := false)
  }

  // ---------------------------------------------------------------------
  // USI overflow: one byte exchanged with the master.
  // ---------------------------------------------------------------------

  /** A received byte 1 or 2 is a request for that many random bytes. */
  predicate IsControlByte(v: bv8) {
    0 < v && v <= 2
  }

  /** The handler is defined in C for a data byte only when the shift
      `8*BytesToSend-1` lies in 0..31, that is when BytesToSend is 1..4. */
  predicate SerialDefined(s: Registers, received: bv8) {
    IsControlByte(received) || (1 <= s.bytesToSend <= 4)
  }

  /** Bit `i` of the byte `b`, as the value 0 or 1. */
  function ByteBit(b: bv8, i: bv32): (x: bv32)
    requires i < 8
    ensures x <= 1
  {
    BitOf(b as bv32, i)
  }

  /** The byte sent for count `count`: bits 8*count-1 .. 8*count+6 of the
      register, so bits 15..22 for count 2 and bits 7..14 for count 1 —
      not a byte-aligned window. Bits above bit 31 read as zero. */
  function OutgoingByte(rn: bv32, count: bv8): (b: bv8)
    requires 1 <= count <= 4
    ensures forall i: bv32 :: i < 8 && 8 * (count as bv32) - 1 + i < 32 ==>
              ByteBit(b, i) == BitOf(rn, 8 * (count as bv32) - 1 + i)
    ensures forall i: bv32 :: i < 8 && 32 <= 8 * (count as bv32) - 1 + i ==> ByteBit(b, i) == 0
  {
    ((rn >> (8 * (count as bv32) - 1)) & 0xFF) as bv8
  }

  /** The USI-overflow handler, after the hardware has shifted `received`
      into USIDR. The guard `BytesToSend >= 0` holds for every unsigned
      byte, so a non-control byte always loads a data byte. */
  function SerialStep(s: Registers, received: bv8): (t: Registers)
    requires SerialDefined(s, received)
    // a control byte sets the count and leaves the received byte in USIDR
    ensures IsControlByte(received) ==> t.bytesToSend == received && t.usidr == received
    // any other byte loads the window for the current count and uses it up
    ensures !IsControlByte(received) ==>
              t.usidr == OutgoingByte(s.randomNumber, s.bytesToSend) && t.bytesToSend == s.bytesToSend - 1
    // the entropy side is untouched and the overflow flag is always cleared
    ensures t == s.(bytesToSend := t.bytesToSend, usidr := t.usidr, usiOverflow := false)
    ensures Invariant(s) ==> Invariant(t)
  {
    var value := received;
    if 0 < value && value <= 2 then
      s.(usidr := value, bytesToSend := value, usiOverflow := false)
    else if s.bytesToSend >= 0 then
      s.(usidr := OutgoingByte(s.randomNumber, s.bytesToSend), bytesToSend := s.bytesToSend - 1,
         usiOverflow := false)
    else
      s.(usidr := value, usiOverflow := false)
  }

  // ---------------------------------------------------------------------
  // Pin change on chip select.
  // ---------------------------------------------------------------------

  /** The handler's test `(PORTB & (1<<3)) == 1` never holds: the masked
      value is 0 or 8. */
  lemma ChipSelectTestNeverHolds(portb: bv8)
    ensures (portb & (1 << 3)) != 1
    ensures (portb & (1 << 3)) == 0 || (portb & (1 << 3)) == 8
  {
  }

  /** The pin-change handler, for any value `portb` of port B's output
      register. */
  function PinChangeStep(s: Registers, portb: bv8): (t: Registers)
    // whatever the pin level, the USI is re-armed: clock counter and
    // overflow flag cleared, wire mode on; nothing else changes
    ensures t == s.(usiClock := 0, usiOverflow := false, wireMode := true)
    ensures Invariant(s) ==> Invariant(t)
  {
    if (portb & (1 << 3)) == 1 then
      s.(wireMode := false)
    else
      s.(usiOverflow := false, usiClock := 0, wireMode := true)
  }

  /** The firmware's state, updated in place by its interrupt handlers. */
  class Device {
    var bytesToSend: bv8
    var randomNumber: bv32
    var lastbit: bv8
    var usidr: bv8
    var usiClock: bv8
    var usiOverflow: bool
    var wireMode: bool
    var timerOverflow: bool

    /** The current state as a value. */
    function State(): Registers
      reads this
    {
      Registers(bytesToSend, randomNumber, lastbit, usidr, usiClock, usiOverflow, wireMode, timerOverflow)
    }

    constructor ()
      ensures State() == PowerOn()
      ensures Invariant(State())
    {
      bytesToSend := 0;
      randomNumber := Seed;
      lastbit := Sentinel;
      usidr := 0;
      usiClock := 0;
      usiOverflow := false;
      wireMode := false;
      timerOverflow := false;
    }

    /** ISR(TIMER1_OVF_vect), with `pinb` the level of port B read by both
        of its pin reads. */
    method TimerOverflowInterrupt(pinb: bv8)
      modifies this
      ensures State() == TimerStep(old(State()), pinb)
      ensures Mixes(old(State()), pinb) ==>
                randomNumber == MixInBit(old(randomNumber), old(lastbit)) && lastbit == Sentinel
      ensures !Mixes(old(State()), pinb) ==> randomNumber == old(randomNumber) && lastbit == Sample(pinb)
      ensures !timerOverflow
      ensures Invariant(old(State())) ==> Invariant(State())
    {
      if lastbit != Sample(pinb) && lastbit != Sentinel {
        randomNumber := MixInBit(randomNumber, lastbit);
        lastbit := Sentinel;
      } else {
        lastbit := Sample(pinb);
      }
      timerOverflow := false;
    }

    /** ISR(USI_OVF_vect), after the master has clocked `received` into USIDR. */
    method SerialOverflowInterrupt(received: bv8)
      requires SerialDefined(State(), received)
      modifies this
      ensures State() == SerialStep(old(State()), received)
      ensures IsControlByte(received) ==> bytesToSend == received && usidr == received
      ensures !IsControlByte(received) ==>
                usidr == OutgoingByte(old(randomNumber), old(bytesToSend)) && bytesToSend == old(bytesToSend) - 1
      ensures randomNumber == old(randomNumber) && lastbit == old(lastbit) && !usiOverflow
      ensures Invariant(old(State())) ==> Invariant(State())
    {
      usidr := received;
      var value := usidr;
      if 0 < value && value <= 2 {
        bytesToSend := value;
      } else {
        if bytesToSend >= 0 {
          usidr := OutgoingByte(randomNumber, bytesToSend);
          bytesToSend := bytesToSend - 1;
        }
      }
      usiOverflow := false;
    }

    /** ISR(PCINT0_vect), with `portb` the value of port B's output register. */
    method PinChangeInterrupt(portb: bv8)
      modifies this
      ensures State() == PinChangeStep(old(State()), portb)
      ensures wireMode && usiClock == 0 && !usiOverflow
      ensures bytesToSend == old(bytesToSend) && randomNumber == old(randomNumber) && lastbit == old(lastbit)
    {
      // the handler's two branches: "CS high" only clears the wire mode,
      // "CS low" clears flag and counter and sets the wire mode
      var csHigh := (portb & (1 << 3)) == 1;
      usiOverflow := if csHigh then usiOverflow else false;
      usiClock := if csHigh then usiClock else 0;
      wireMode := !csHigh;
    }
  }
}
