/** The serial transport over a sequence of exchanged bytes: the count
    negotiation of the USI-overflow handler seen from the master's side. */
module Transport {
  import opened Mixer
  import opened Firmware

  /** Every byte of `received`, taken in order from `s`, is one the handler
      defines. */
  predicate Accepts(s: Registers, received: seq<bv8>)
    decreases |received|
  {
    received == [] || (SerialDefined(s, received[0]) && Accepts(SerialStep(s, received[0]), received[1..]))
  }

  /** The state after the bytes `received`. */
  function Exchange(s: Registers, received: seq<bv8>): (t: Registers)
    requires Accepts(s, received)
    ensures t.randomNumber == s.randomNumber && t.lastbit == s.lastbit
    decreases |received|
  {
    if received == [] then s else Exchange(SerialStep(s, received[0]), received[1..])
  }

  /** USIDR after each byte of `received`, as the handler leaves it. */
  function Replies(s: Registers, received: seq<bv8>): (out: seq<bv8>)
    requires Accepts(s, received)
    ensures |out| == |received|
    decreases |received|
  {
    if received == [] then []
    else [SerialStep(s, received[0]).usidr] + Replies(SerialStep(s, received[0]), received[1..])
  }

  /** The windows sent for counts `n`, `n-1`, ..., 1, in that order. */
  function Countdown(rn: bv32, n: bv8): (out: seq<bv8>)
    requires n <= 4
    ensures |out| == n as int
    decreases n
  {
    if n == 0 then [] else [OutgoingByte(rn, n)] + Countdown(rn, n - 1)
  }

  /** Whatever the data bytes the master sends, `n` owed bytes come out as
      the windows for `n` down to 1, after which nothing is owed. */
  lemma {:induction false} DataBytes(s: Registers, received: seq<bv8>)
    requires 1 <= s.bytesToSend <= 4
    requires |received| == s.bytesToSend as int
    requires forall i :: 0 <= i < |received| ==> !IsControlByte(received[i])
    ensures Accepts(s, received)
    ensures Replies(s, received) == Countdown(s.randomNumber, s.bytesToSend)
    ensures Exchange(s, received).bytesToSend == 0
    decreases |received|
  {
    var t := SerialStep(s, received[0]);
    if |received| > 1 {
      DataBytes(t, received[1..]);
    }
  }

  /** A session: a control byte `n` (1 or 2) and `n` data bytes. USIDR holds
      `n` after the first exchange and then the windows for `n` down to 1;
      after that a further data byte would need the undefined shift by -1. */
  lemma Session(s: Registers, n: bv8, data: seq<bv8>)
    requires IsControlByte(n)
    requires |data| == n as int
    requires forall i :: 0 <= i < |data| ==> !IsControlByte(data[i])
    ensures Accepts(s, [n] + data)
    ensures Replies(s, [n] + data) == [n] + Countdown(s.randomNumber, n)
    ensures Exchange(s, [n] + data).bytesToSend == 0
    ensures forall x :: !IsControlByte(x) ==> !SerialDefined(Exchange(s, [n] + data), x)
  {
    var t := SerialStep(s, n);
    DataBytes(t, data);
    ExchangeCons(s, n, data);
  }

  /** Exchanging a first byte and then the rest. */
  lemma ExchangeCons(s: Registers, first: bv8, rest: seq<bv8>)
    requires SerialDefined(s, first) && Accepts(SerialStep(s, first), rest)
    ensures Accepts(s, [first] + rest)
    ensures Replies(s, [first] + rest) == [SerialStep(s, first).usidr] + Replies(SerialStep(s, first), rest)
    ensures Exchange(s, [first] + rest) == Exchange(SerialStep(s, first), rest)
  {
    assert ([first] + rest)[0] == first && ([first] + rest)[1..] == rest;
  }

  /** Two bytes requested: bits 15..22 of the register, then bits 7..14. */
  lemma TwoByteWindows(rn: bv32)
    ensures Countdown(rn, 2) == [OutgoingByte(rn, 2), OutgoingByte(rn, 1)]
    ensures forall i: bv32 :: i < 8 ==> ByteBit(Countdown(rn, 2)[0], i) == BitOf(rn, 15 + i)
    ensures forall i: bv32 :: i < 8 ==> ByteBit(Countdown(rn, 2)[1], i) == BitOf(rn, 7 + i)
  {
  }

  /** What the master receives during each exchange of `sent`. The device
      shifts out USIDR as it stands when the exchange starts, so the byte
      the handler loads after one exchange reaches the master in the next. */
  function Received(s: Registers, sent: seq<bv8>): (got: seq<bv8>)
    requires Accepts(s, sent)
    ensures |got| == |sent|
    ensures sent != [] ==> got[0] == s.usidr
    decreases |sent|
  {
    if sent == [] then [] else [s.usidr] + Received(SerialStep(s, sent[0]), sent[1..])
  }

  /** The master receives the handler's replies one exchange late. */
  lemma {:induction false} ReceivedLags(s: Registers, sent: seq<bv8>)
    requires Accepts(s, sent)
    ensures Received(s, sent) == ([s.usidr] + Replies(s, sent))[..|sent|]
    decreases |sent|
  {
    if sent != [] {
      var t := SerialStep(s, sent[0]);
      ReceivedLags(t, sent[1..]);
      assert ([s.usidr] + Replies(s, sent))[..|sent|] == [s.usidr] + ([t.usidr] + Replies(t, sent[1..]))[..|sent| - 1];
    }
  }

  /** `xs + ys` is accepted exactly when `xs` is and `ys` is from where `xs`
      leaves the device. */
  lemma {:induction false} AcceptsAppend(s: Registers, xs: seq<bv8>, ys: seq<bv8>)
    ensures Accepts(s, xs + ys) <==> Accepts(s, xs) && Accepts(Exchange(s, xs), ys)
    decreases |xs|
  {
    if xs == [] {
      assert xs + ys == ys;
    } else {
      assert (xs + ys)[0] == xs[0] && (xs + ys)[1..] == xs[1..] + ys;
      if SerialDefined(s, xs[0]) {
        var t := SerialStep(s, xs[0]);
        AcceptsAppend(t, xs[1..], ys);
        assert Accepts(s, xs) ==> Exchange(s, xs) == Exchange(t, xs[1..]);
      }
    }
  }

  /** With `k` bytes owed, a master that sends `k` data bytes and then a
      request receives the current USIDR and the windows for `k` down to 1:
      each window reaches it on the exchange after the one that loaded it. */
  lemma {:induction false} ReceivedWindows(s: Registers, data: seq<bv8>, c: bv8)
    requires s.bytesToSend <= 4 && IsControlByte(c)
    requires |data| == s.bytesToSend as int
    requires forall i :: 0 <= i < |data| ==> !IsControlByte(data[i])
    ensures Accepts(s, data + [c])
    ensures Received(s, data + [c]) == [s.usidr] + Countdown(s.randomNumber, s.bytesToSend)
    decreases |data|
  {
    if data == [] {
      assert data + [c] == [c];
      ReceivedCons(s, c, []);
    } else {
      var k := s.bytesToSend;
      var t := SerialStep(s, data[0]);
      assert t.usidr == OutgoingByte(s.randomNumber, k) && t.bytesToSend == k - 1;
      ReceivedWindows(t, data[1..], c);
      assert data + [c] == [data[0]] + (data[1..] + [c]);
      ReceivedCons(s, data[0], data[1..] + [c]);
    }
  }

  /** Exchanging a first byte and then the rest, as the master receives it. */
  lemma ReceivedCons(s: Registers, first: bv8, rest: seq<bv8>)
    requires SerialDefined(s, first) && Accepts(SerialStep(s, first), rest)
    ensures Accepts(s, [first] + rest)
    ensures Received(s, [first] + rest) == [s.usidr] + Received(SerialStep(s, first), rest)
  {
    assert ([first] + rest)[0] == first && ([first] + rest)[1..] == rest;
  }

  /** A session as the master sees it. To clock out the last window it must
      make one more exchange; if that byte is a new request `c` the master
      receives the old USIDR, then `n`, then the windows for `n` down to 1. */
  lemma WireSession(s: Registers, n: bv8, data: seq<bv8>, c: bv8)
    requires IsControlByte(n) && IsControlByte(c)
    requires |data| == n as int
    requires forall i :: 0 <= i < |data| ==> !IsControlByte(data[i])
    ensures Accepts(s, [n] + data + [c])
    ensures Received(s, [n] + data + [c]) == [s.usidr, n] + Countdown(s.randomNumber, n)
  {
    var tail, cd := data + [c], Countdown(s.randomNumber, n);
    ReceivedAfterRequest(s, n, data, c);
    ReceivedCons(s, n, tail);
    RegroupSentAndReceived(s.usidr, n, data, c, cd);
  }

  /** The bytes a session sends, regrouped as the request and then the rest,
      and the bytes it receives, regrouped as the old USIDR and `n` ahead of
      the windows. */
  lemma RegroupSentAndReceived(u: bv8, n: bv8, data: seq<bv8>, c: bv8, cd: seq<bv8>)
    ensures [n] + data + [c] == [n] + (data + [c])
    ensures [u] + ([n] + cd) == [u, n] + cd
  {
  }

  /** After the request `n` the master receives `n` back, then the windows. */
  lemma ReceivedAfterRequest(s: Registers, n: bv8, data: seq<bv8>, c: bv8)
    requires IsControlByte(n) && IsControlByte(c)
    requires |data| == n as int
    requires forall i :: 0 <= i < |data| ==> !IsControlByte(data[i])
    ensures SerialDefined(s, n) && Accepts(SerialStep(s, n), data + [c])
    ensures Received(SerialStep(s, n), data + [c]) == [n] + Countdown(s.randomNumber, n)
  {
    var t := SerialStep(s, n);
    assert t.usidr == n && t.bytesToSend == n && t.randomNumber == s.randomNumber;
    ReceivedWindows(t, data, c);
  }

  /** If the extra exchange that clocks out the last window carries a data
      byte, the C code shifts by -1: the session is not defined. */
  lemma DataAfterSessionUndefined(s: Registers, n: bv8, data: seq<bv8>, z: bv8)
    requires IsControlByte(n) && !IsControlByte(z)
    requires |data| == n as int
    requires forall i :: 0 <= i < |data| ==> !IsControlByte(data[i])
    ensures !Accepts(s, [n] + data + [z])
  {
    Session(s, n, data);
    AcceptsAppend(s, [n] + data, [z]);
  }

  /** With the register at its seed, after a chip-select edge, a master that
      sends 2, two data bytes and a new request receives 0, 2 and then 0xAA
      twice: the odd bits of 1010...101, not its bytes 0x55. */
  lemma SeedSession(edge: bv8, x: bv8, y: bv8, c: bv8)
    requires !IsControlByte(x) && !IsControlByte(y) && IsControlByte(c)
    ensures Accepts(PinChangeStep(PowerOn(), edge), [2, x, y, c])
    ensures Received(PinChangeStep(PowerOn(), edge), [2, x, y, c]) == [0, 2, 0xAA, 0xAA]
  {
    WireSession(PinChangeStep(PowerOn(), edge), 2, [x, y], c);
    assert [2 as bv8] + [x, y] + [c] == [2, x, y, c];
  }

  /** A chip-select edge keeps the owed count: after deselect and reselect
      the next data byte continues the interrupted transfer. */
  lemma ReselectResumes(s: Registers, up: bv8, down: bv8, x: bv8)
    requires 1 <= s.bytesToSend <= 4 && !IsControlByte(x)
    ensures SerialDefined(PinChangeStep(PinChangeStep(s, up), down), x)
    ensures SerialStep(PinChangeStep(PinChangeStep(s, up), down), x).usidr == OutgoingByte(s.randomNumber, s.bytesToSend)
  {
  }
}
