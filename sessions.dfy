/** Serial sessions interleaved with the other interrupts. Between two bytes
    from the master the timer handler may fire and change the register, so
    each window is read from the register as it stands when its own data
    byte arrives. */
module Sessions {
  import opened Mixer
  import opened Firmware
  import opened Transport
  import opened Events

  /** The bytes the master sends during `es`, in order. */
  function BytesOf(es: seq<Event>): (bytes: seq<bv8>)
    ensures |bytes| <= |es|
    decreases |es|
  {
    if es == [] then []
    else if es[0].ByteDone? then [es[0].received] + BytesOf(es[1..])
    else BytesOf(es[1..])
  }

  /** The run in which the master's bytes `xs` are the only events. */
  function ByteEvents(xs: seq<bv8>): (es: seq<Event>)
    ensures |es| == |xs|
    ensures forall i :: 0 <= i < |es| ==> es[i] == ByteDone(xs[i])
    decreases |xs|
  {
    if xs == [] then [] else [ByteDone(xs[0])] + ByteEvents(xs[1..])
  }

  /** USIDR as the handler leaves it after each byte of `es`. */
  function Loads(s: Registers, es: seq<Event>): (out: seq<bv8>)
    requires Defined(s, es)
    ensures |out| == |BytesOf(es)|
    decreases |es|
  {
    if es == [] then []
    else if es[0].ByteDone? then [Step(s, es[0]).usidr] + Loads(Step(s, es[0]), es[1..])
    else Loads(Step(s, es[0]), es[1..])
  }

  /** The register as the handler finds it at each byte of `es`. */
  function RegistersAtBytes(s: Registers, es: seq<Event>): (regs: seq<bv32>)
    requires Defined(s, es)
    ensures |regs| == |BytesOf(es)|
    // without timer ticks every byte sees the starting register
    ensures (forall i :: 0 <= i < |es| ==> !es[i].Tick?) ==>
              forall k :: 0 <= k < |regs| ==> regs[k] == s.randomNumber
    decreases |es|
  {
    if es == [] then []
    else if es[0].ByteDone? then [s.randomNumber] + RegistersAtBytes(Step(s, es[0]), es[1..])
    else RegistersAtBytes(Step(s, es[0]), es[1..])
  }

  /** The windows for counts `n`, `n-1`, ..., the k-th one read from the
      k-th register value of `regs`. */
  function WindowsAt(regs: seq<bv32>, n: bv8): (out: seq<bv8>)
    requires regs == [] || |regs| <= n as int <= 4
    ensures |out| == |regs|
    ensures forall k :: 0 <= k < |regs| ==> out[k] == OutgoingByte(regs[k], n - k as bv8)
    decreases |regs|
  {
    if regs == [] then [] else [OutgoingByte(regs[0], n)] + WindowsAt(regs[1..], n - 1)
  }

  /** With a register that never changes, the windows are the countdown. */
  lemma {:induction false} WindowsAtConstant(regs: seq<bv32>, r: bv32, n: bv8)
    requires |regs| == n as int <= 4
    requires forall i :: 0 <= i < |regs| ==> regs[i] == r
    ensures WindowsAt(regs, n) == Countdown(r, n)
    decreases |regs|
  {
    if regs != [] {
      WindowsAtConstant(regs[1..], r, n - 1);
    }
  }

  /** The same, for the values after the first. */
  lemma WindowsAtConstantTail(regs: seq<bv32>, r: bv32, n: bv8)
    requires |regs| == n as int + 1 && n <= 4
    requires forall i :: 0 <= i < |regs| ==> regs[i] == r
    ensures WindowsAt(regs[1..], n) == Countdown(r, n)
  {
    WindowsAtConstant(regs[1..], r, n);
  }

  /** Serial bytes alone: a run of byte events is the transport's exchange. */
  lemma {:induction false} ByteRunIsExchange(s: Registers, xs: seq<bv8>)
    ensures Defined(s, ByteEvents(xs)) <==> Accepts(s, xs)
    ensures Accepts(s, xs) ==> Run(s, ByteEvents(xs)) == Exchange(s, xs)
    ensures Accepts(s, xs) ==> Loads(s, ByteEvents(xs)) == Replies(s, xs)
    decreases |xs|
  {
    if xs != [] {
      var es := ByteEvents(xs);
      assert es[0] == ByteDone(xs[0]) && es[1..] == ByteEvents(xs[1..]);
      if SerialDefined(s, xs[0]) {
        ByteRunIsExchange(SerialStep(s, xs[0]), xs[1..]);
      }
    }
  }

  /** Every byte of `es` is a data byte: none is a request. */
  predicate DataOnly(es: seq<Event>) {
    forall i :: 0 <= i < |es| ==> es[i].ByteDone? ==> !IsControlByte(es[i].received)
  }

  /** `es` holds the request `n` as its first byte, then `n` data bytes, with
      any ticks and edges in between. */
  predicate SessionEvents(es: seq<Event>, n: bv8)
    decreases |es|
  {
    && es != []
    && if es[0].ByteDone? then es[0].received == n && DataOnly(es[1..]) && |BytesOf(es[1..])| == n as int
       else SessionEvents(es[1..], n)
  }

  /** One event, then the rest. */
  lemma EventCons(s: Registers, e: Event, rest: seq<Event>)
    requires Enabled(s, e) && Defined(Step(s, e), rest)
    ensures Defined(s, [e] + rest)
    ensures Loads(s, [e] + rest) == (if e.ByteDone? then [Step(s, e).usidr] else []) + Loads(Step(s, e), rest)
  {
    assert ([e] + rest)[0] == e && ([e] + rest)[1..] == rest;
  }

  /** Data bytes interleaved with ticks and edges: each loads the window for
      the count it finds, read from the register as it then stands, and uses
      one owed byte; ticks and edges leave the count and USIDR alone. */
  lemma {:induction false} InterleavedWindows(s: Registers, es: seq<Event>)
    requires Defined(s, es) && DataOnly(es)
    ensures |BytesOf(es)| <= s.bytesToSend as int
    ensures BytesOf(es) != [] ==> s.bytesToSend <= 4
    ensures Loads(s, es) == WindowsAt(RegistersAtBytes(s, es), s.bytesToSend)
    ensures Run(s, es).bytesToSend as int == s.bytesToSend as int - |BytesOf(es)|
    decreases |es|
  {
    if es != [] {
      var t := Step(s, es[0]);
      assert DataOnly(es[1..]) by {
        forall i | 0 <= i < |es[1..]| ensures es[1..][i] == es[i + 1] { }
      }
      InterleavedWindows(t, es[1..]);
      if es[0].ByteDone? {
        WindowsStep(s, es);
      }
    }
  }

  /** The step of InterleavedWindows at a data byte. */
  lemma WindowsStep(s: Registers, es: seq<Event>)
    requires es != [] && es[0].ByteDone? && !IsControlByte(es[0].received)
    requires Defined(s, es)
    requires |BytesOf(es[1..])| <= Step(s, es[0]).bytesToSend as int
    requires Loads(Step(s, es[0]), es[1..])
               == WindowsAt(RegistersAtBytes(Step(s, es[0]), es[1..]), Step(s, es[0]).bytesToSend)
    requires Run(Step(s, es[0]), es[1..]).bytesToSend as int
               == Step(s, es[0]).bytesToSend as int - |BytesOf(es[1..])|
    ensures |BytesOf(es)| <= s.bytesToSend as int <= 4
    ensures Loads(s, es) == WindowsAt(RegistersAtBytes(s, es), s.bytesToSend)
    ensures Run(s, es).bytesToSend as int == s.bytesToSend as int - |BytesOf(es)|
  {
    var t := Step(s, es[0]);
    assert 1 <= s.bytesToSend <= 4 && t.bytesToSend == s.bytesToSend - 1;
    assert t.usidr == OutgoingByte(s.randomNumber, s.bytesToSend) && t.randomNumber == s.randomNumber;
    var regs := RegistersAtBytes(t, es[1..]);
    assert RegistersAtBytes(s, es) == [s.randomNumber] + regs;
    assert ([s.randomNumber] + regs)[1..] == regs;
  }

  /** A session interleaved with ticks and edges: the request `n` stays in
      USIDR, then the k-th data byte loads the window for count n-k+1 read
      from the register at that byte, and nothing is owed afterwards. */
  lemma {:induction false} InterleavedSession(s: Registers, es: seq<Event>, n: bv8)
    requires Defined(s, es) && IsControlByte(n) && SessionEvents(es, n)
    ensures |RegistersAtBytes(s, es)| == n as int + 1
    ensures Loads(s, es) == [n] + WindowsAt(RegistersAtBytes(s, es)[1..], n)
    ensures Run(s, es).bytesToSend == 0
    decreases |es|
  {
    var t := Step(s, es[0]);
    if es[0].ByteDone? {
      InterleavedWindows(t, es[1..]);
      assert RegistersAtBytes(s, es)[1..] == RegistersAtBytes(t, es[1..]);
    } else {
      InterleavedSession(t, es[1..], n);
    }
  }

  /** Without timer ticks an interleaved session loads what `Transport.Session`
      describes: `n`, then the countdown of the starting register. */
  lemma TicklessSession(s: Registers, es: seq<Event>, n: bv8)
    requires Defined(s, es) && IsControlByte(n) && SessionEvents(es, n)
    requires forall i :: 0 <= i < |es| ==> !es[i].Tick?
    ensures Loads(s, es) == [n] + Countdown(s.randomNumber, n)
  {
    InterleavedSession(s, es, n);
    WindowsAtConstantTail(RegistersAtBytes(s, es), s.randomNumber, n);
  }

  /** From the seed after a chip-select edge, a request for two bytes with a
      mixing tick pair 0,1 between the data bytes loads 2, 0xAA and then
      0x55: the second window comes from the register after the 0 was mixed
      in, not from the seed. */
  lemma TickMidSession(edge: bv8, x: bv8, y: bv8)
    requires !IsControlByte(x) && !IsControlByte(y)
    ensures Defined(PinChangeStep(PowerOn(), edge), [ByteDone(2), ByteDone(x), Tick(0x00), Tick(0x10), ByteDone(y)])
    ensures Loads(PinChangeStep(PowerOn(), edge), [ByteDone(2), ByteDone(x), Tick(0x00), Tick(0x10), ByteDone(y)])
              == [2, 0xAA, 0x55]
  {
    var s0 := PinChangeStep(PowerOn(), edge);
    var s1 := SerialStep(s0, 2);
    var s2 := SerialStep(s1, x);
    var s3 := TimerStep(s2, 0x00);
    var s4 := TimerStep(s3, 0x10);
    assert s2.usidr == 0xAA && s2.bytesToSend == 1;
    assert s3.lastbit == 0 && s3.randomNumber == Seed;
    assert s4.randomNumber == MixInBit(Seed, 0) == 0x1AA_AAAA;
    EventCons(s4, ByteDone(y), []);
    EventCons(s3, Tick(0x10), [ByteDone(y)]);
    EventCons(s2, Tick(0x00), [Tick(0x10), ByteDone(y)]);
    EventCons(s1, ByteDone(x), [Tick(0x00), Tick(0x10), ByteDone(y)]);
    EventCons(s0, ByteDone(2), [ByteDone(x), Tick(0x00), Tick(0x10), ByteDone(y)]);
  }
}
