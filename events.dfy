/** Arbitrary interleavings of the three interrupts. Each handler runs as one
    atomic event; a run is any finite sequence of events in which every
    serial event is one the C code defines. */
module Events {
  import opened Mixer
  import opened Firmware
  import opened Debiasing

  datatype Event =
    | Tick(pinb: bv8)              // timer-1 overflow, port B input level
    | ByteDone(received: bv8)      // USI overflow, byte received from the master
    | ChipSelectEdge(portb: bv8)   // pin change on chip select, port B output value

  /** The C code gives the event a meaning in state `s`. */
  predicate Enabled(s: Registers, e: Event) {
    e.ByteDone? ==> SerialDefined(s, e.received)
  }

  /** The effect of one event. */
  function Step(s: Registers, e: Event): (t: Registers)
    requires Enabled(s, e)
    ensures Invariant(s) ==> Invariant(t)
    ensures !e.Tick? ==> t.randomNumber == s.randomNumber && t.lastbit == s.lastbit
    ensures !e.ByteDone? ==> t.bytesToSend == s.bytesToSend && t.usidr == s.usidr
  {
    match e
    case Tick(pinb) => TimerStep(s, pinb)
    case ByteDone(received) => SerialStep(s, received)
    case ChipSelectEdge(portb) => PinChangeStep(s, portb)
  }

  /** Every event of `es`, taken in order from `s`, is enabled. */
  predicate Defined(s: Registers, es: seq<Event>)
    decreases |es|
  {
    es == [] || (Enabled(s, es[0]) && Defined(Step(s, es[0]), es[1..]))
  }

  /** The state after the events `es`. */
  function Run(s: Registers, es: seq<Event>): (t: Registers)
    requires Defined(s, es)
    ensures Invariant(s) ==> Invariant(t)
    decreases |es|
  {
    if es == [] then s else Run(Step(s, es[0]), es[1..])
  }

  /** In every state reached from power-on the latch holds 0, 1 or the
      sentinel, the register keeps 25 bits and at most two bytes are owed. */
  lemma Reachable(es: seq<Event>)
    requires Defined(PowerOn(), es)
    ensures Invariant(Run(PowerOn(), es))
    ensures Run(PowerOn(), es).lastbit in {0, 1, Sentinel}
  {
  }

  /** The entropy path has a single writer: events other than timer ticks
      never change the register or the latch. */
  lemma {:induction false} OnlyTicksWrite(s: Registers, es: seq<Event>)
    requires Defined(s, es)
    requires forall i :: 0 <= i < |es| ==> !es[i].Tick?
    ensures Run(s, es).randomNumber == s.randomNumber && Run(s, es).lastbit == s.lastbit
    decreases |es|
  {
    if es != [] {
      OnlyTicksWrite(Step(s, es[0]), es[1..]);
    }
  }

  /** The port B levels of the timer ticks in `es`, in order. */
  function PinsOf(es: seq<Event>): (pins: seq<bv8>)
    ensures |pins| <= |es|
    decreases |es|
  {
    if es == [] then []
    else if es[0].Tick? then [es[0].pinb] + PinsOf(es[1..])
    else PinsOf(es[1..])
  }

  /** Serial bytes and chip-select edges interleaved with the ticks change
      nothing on the entropy path: the register and the latch end as the
      ticks alone would leave them. */
  lemma {:induction false} TicksAloneWrite(s: Registers, es: seq<Event>)
    requires Defined(s, es)
    ensures Run(s, es).randomNumber == Ticks(s, PinsOf(es)).randomNumber
    ensures Run(s, es).lastbit == Ticks(s, PinsOf(es)).lastbit
    decreases |es|
  {
    if es != [] {
      var t := Step(s, es[0]);
      TicksAloneWrite(t, es[1..]);
      if es[0].Tick? {
        assert ([es[0].pinb] + PinsOf(es[1..]))[1..] == PinsOf(es[1..]);
      } else {
        TicksSameEntropy(s, t, PinsOf(es[1..]));
      }
    }
  }

  /** Ticks depend only on the register and the latch of the state they
      start from. */
  lemma {:induction false} TicksSameEntropy(s: Registers, t: Registers, pins: seq<bv8>)
    requires s.randomNumber == t.randomNumber && s.lastbit == t.lastbit
    ensures Ticks(s, pins).randomNumber == Ticks(t, pins).randomNumber
    ensures Ticks(s, pins).lastbit == Ticks(t, pins).lastbit
    decreases |pins|
  {
    if pins != [] {
      TicksSameEntropy(TimerStep(s, pins[0]), TimerStep(t, pins[0]), pins[1..]);
    }
  }

  /** From power-on, whatever the master does in between, the register is
      the seed with the extractor's bits from the tick samples mixed in. */
  lemma EntropyFromPowerOn(es: seq<Event>)
    requires Defined(PowerOn(), es)
    ensures Run(PowerOn(), es).randomNumber == MixAll(Seed, TransitionExtractor(PinsOf(es)))
  {
    TicksAloneWrite(PowerOn(), es);
    TicksFromPowerOn(PinsOf(es));
  }

  /** In a reachable state the only event the C code leaves undefined is a
      data byte arriving when no byte is owed. */
  lemma UndefinedOnlyWhenNothingOwed(s: Registers, received: bv8)
    requires Invariant(s)
    ensures SerialDefined(s, received) <==> IsControlByte(received) || s.bytesToSend != 0
  {
  }

  /** A chip-select edge commutes with a timer tick and with a serial byte:
      the order in which these independent interrupts are taken does not
      change the resulting state. */
  lemma EdgeCommutes(s: Registers, portb: bv8, e: Event)
    requires !e.ChipSelectEdge?
    requires Enabled(s, e)
    ensures Enabled(PinChangeStep(s, portb), e)
    ensures Step(PinChangeStep(s, portb), e) == PinChangeStep(Step(s, e), portb)
  {
  }
}
