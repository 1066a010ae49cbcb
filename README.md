# SPI-RNG firmware core in Dafny

SPI-RNG is the firmware of a small microcontroller that acts as a hardware
random-number generator on a three-wire serial (SPI) link. Three interrupt
handlers in `firmware/main.c` do all of the work:

- the **timer-1 overflow** handler samples a noisy input pin (bit 4 of
  port B), debiases the samples with a latch `lastbit` whose value 255 means
  "empty", and folds each debiased bit into the global `randomNumber`
  through the `mixInBit` macro, a 25-bit feedback shift register with taps
  at bits 0 and 3;
- the **USI overflow** handler runs after every byte exchanged with the
  master: a received 1 or 2 sets the count `BytesToSend`; any other byte
  loads `(randomNumber >> (8*BytesToSend-1)) & 0xFF` into the data register
  `USIDR` and decrements the count;
- the **pin-change** handler runs on a chip-select edge and re-arms the
  USI: it clears the 4-bit clock counter and the overflow flag and sets the
  three-wire mode.

The model is split into six modules:

- `Mixer` (mixer.dfy): `MixInBit` on `bv32`, its inverse on 25-bit
  registers, and `MixAll`, the register after a sequence of bits.
- `Firmware` (firmware.dfy): the state as a value (`Registers`), one
  function per handler (`TimerStep`, `SerialStep`, `PinChangeStep`), and
  the class `Device`, whose methods are the three handlers updating the
  same state in place, each proved equal to its function.
- `Events` (events.dfy): arbitrary interleavings of the three handlers,
  each taken as one atomic event, the invariant every reachable state
  keeps, and the register after an interleaving, which depends only on
  its timer ticks.
- `Debiasing` (debiasing.dfy): runs of timer ticks. They factor into the
  sampler's output bits followed by the mixer. The sampler equals an
  independent "runs of equal samples" description of the extractor.
- `Transport` (transport.dfy): runs of serial bytes, both as the handler
  leaves `USIDR` and as the master receives them one exchange later. A
  control byte `n` followed by `n` data bytes loads the windows for `n`
  down to 1.
- `Sessions` (sessions.dfy): serial sessions interleaved with timer ticks
  and chip-select edges. A run of byte events alone is the transport's
  exchange; with ticks in between, each window is read from the register
  as it stands when its own data byte arrives.

Hardware inputs are parameters. Each handler gets the port B input level
(`pinb`), the received byte, or the port B output value (`portb`). The
hardware register bits the handlers touch are fields: `USIDR`, the USI
clock counter, the USI overflow flag, the wire-mode bit `USIWM0` and the
timer overflow flag `TOV1`.

What the code does that its own comments do not say (the model follows the
code):

- The comment at `firmware/main.c:14` calls the register 16 bits. The seed
  and the feedback position make it 25 bits (`Mixer.MixInBit`,
  `Events.Reachable`).
- The sampler waits for a transition. An equal sample only overwrites the
  latch. A differing sample mixes in the *previous* sample, which is the
  value of the run of equal samples that just ended
  (`Debiasing.TransitionExtractor`). This is not the extractor over
  non-overlapping pairs: the samples 0,0,1,1 give the bit 0
  (`Debiasing.FourSamples`), and 0,0,0,1,1,0 give two bits, 0 and 1
  (`Debiasing.SixSamples`).
- The register can become zero: 1 with the bit 1 mixed in gives 0
  (`Mixer.MixCanReachZero`). From any register, a bit that cancels the two
  taps shifts it right by one place, so the seed reaches zero after 25 such
  bits (`Mixer.SeedCanReachZero`). The sampler can deliver any bit
  sequence (`Debiasing.ExtractorEmitsAny`), so 50 timer ticks after power-on
  can leave the register at zero (`Debiasing.SeedReachesZero`). No non-zero
  invariant holds.
- The comment at `firmware/main.c:4` says the device returns the requested
  random bytes. The handler leaves in `USIDR` bits 15..22 and then bits
  7..14 of the register, which are not byte-aligned
  (`Transport.TwoByteWindows`). The master receives each of these one
  exchange after the one that loaded it, because the USI shifts out `USIDR`
  as it stands when an exchange begins (`Transport.ReceivedLags`). So a
  master that sends 2, two data bytes and a further request, with no
  timer tick in between, receives the old `USIDR`, then 2, then the two
  windows; with the seed `1010...101` those are 0xAA twice
  (`Transport.WireSession`, `Transport.SeedSession`).
- The timer handler keeps running during a session and is the only writer
  of the register. Each data byte reads its window from the register as it
  stands when that byte arrives (`Sessions.InterleavedSession`). From the
  seed, a tick pair 0,1 between the two data bytes mixes a 0 in, and the
  second window becomes 0x55 instead of 0xAA (`Sessions.TickMidSession`).
- The comments at `firmware/main.c:40-41` describe a byte from 1 to 2 as a
  command and any other byte as a prompt to send. A received 0 or 3 is
  therefore a data byte: it loads a window and uses up one owed byte. With
  nothing owed, the C code shifts by -1, which is undefined. The model
  requires that this never happens (`Firmware.SerialDefined`). To clock out
  the last window the master needs one more exchange; if that byte is a
  data byte, it is exactly this undefined case
  (`Transport.DataAfterSessionUndefined`).
- The comment at `firmware/main.c:56` says "CS is high, disable SPI", but
  the test `(PORTB & (1<<3)) == 1` never holds. The USI is never disarmed
  and every edge re-arms it (`Firmware.ChipSelectTestNeverHolds`). The
  owed count survives a deselect and reselect, and the next data byte
  continues the interrupted transfer (`Transport.ReselectResumes`).

## Model

| member | source | states |
|---|---|---|
| `Mixer.MixInBit` | firmware/main.c:11 | bits 0..23 of the result are bits 1..24 of the old register; a register below 2^25 stays below 2^25 and its new bit 24 is the input bit XOR old bits 0 and 3 |
| `Mixer.UnmixBit` | firmware/main.c:11 | the predecessor of a register for a given input bit: below 2^25, with bits 1..24 equal to bits 0..23 of the given register |
| `Mixer.UnmixAfterMix` | firmware/main.c:11 | mixing loses nothing: the old 25-bit register is recovered from the new one and the mixed bit |
| `Mixer.MixAfterUnmix` | firmware/main.c:11 | every 25-bit register has a predecessor for each input bit, so the mixer is a bijection on 25-bit registers |
| `Mixer.MixAll` | firmware/main.c:11-14 | mixing any sequence of bits into a register below 2^25 leaves it below 2^25 |
| `Mixer.MixAllAppend` | firmware/main.c:11 | mixing two bit sequences in turn is mixing their concatenation |
| `Mixer.MixAllInjective` | firmware/main.c:11 | two different 25-bit registers fed the same bits never become equal |
| `Mixer.MixCanReachZero` | firmware/main.c:11 | the register can become zero: value 1 with bit 1 mixed in gives 0 |
| `Mixer.CancelBit` | firmware/main.c:11 | the input bit equal to the XOR of taps 0 and 3 is 0 or 1, and mixing it in shifts the register right by one place |
| `Mixer.CancelPath` | firmware/main.c:11 | k cancelling bits, each 0 or 1 and chosen for the register as it then stands |
| `Mixer.CancelPathDrains` | firmware/main.c:11 | mixing in k cancelling bits shifts the register right k times |
| `Mixer.SeedCanReachZero` | firmware/main.c:11-14 | the seed becomes zero after its 25 cancelling bits |
| `Firmware.PowerOn` | firmware/main.c:13-15 | the initial state (count 0, the 25-bit seed, an empty latch, wire mode off) satisfies the invariant |
| `Firmware.Sample` | firmware/main.c:67 | the pin sample is 0 or 1, and it is 1 exactly when bit 4 of port B is set |
| `Firmware.TimerStep` | firmware/main.c:66-74 | the latch ends as 0, 1 or empty; it is empty exactly after a mix; a mix happens exactly when a real pending bit differs from the sample and folds in the previous sample; otherwise the register is kept and the sample is latched; only the register, the latch and the timer flag change; the invariant is kept |
| `Firmware.OutgoingByte` | firmware/main.c:48 | bit i of the byte sent for count c is bit 8c-1+i of the register, or 0 past bit 31 |
| `Firmware.SerialStep` | firmware/main.c:42-53 | a received 1 or 2 sets the count and stays in USIDR; any other byte loads the window for the current count and decrements the count; the register and latch are unchanged and the overflow flag is cleared; the invariant is kept |
| `Firmware.ChipSelectTestNeverHolds` | firmware/main.c:56 | for every port B value the masked bit is 0 or 8, never 1 |
| `Firmware.PinChangeStep` | firmware/main.c:55-64 | every chip-select edge clears the clock counter and overflow flag and turns wire mode on, and changes nothing else |
| `Firmware.Device.constructor` | firmware/main.c:13-15 | a new device is in the power-on state |
| `Firmware.Device.TimerOverflowInterrupt` | firmware/main.c:66-74 | the in-place timer handler produces `TimerStep` of the old state: on a mix the register becomes `MixInBit(old register, old latch)` and the latch empties, otherwise the register is kept and the sample latched; the timer flag is cleared |
| `Firmware.Device.SerialOverflowInterrupt` | firmware/main.c:42-53 | the in-place USI handler produces `SerialStep` of the old state: count set by a control byte, or window loaded and count decremented; register and latch unchanged; overflow flag cleared |
| `Firmware.Device.PinChangeInterrupt` | firmware/main.c:55-64 | the in-place pin-change handler produces `PinChangeStep` of the old state: wire mode on, counter and flag cleared, count, register and latch unchanged |
| `Events.Step` | firmware/main.c:42-74 | each handler keeps the invariant; only the timer handler touches the register and latch; only the serial handler touches the owed count and USIDR |
| `Events.Run` | firmware/main.c:42-74 | any interleaving of handler events keeps the invariant |
| `Events.Reachable` | firmware/main.c:13-15 | in every state reached from power-on the latch is 0, 1 or 255, the register is below 2^25 and at most two bytes are owed |
| `Events.OnlyTicksWrite` | firmware/main.c:42-64 | runs without timer ticks leave the register and latch unchanged |
| `Events.TicksAloneWrite` | firmware/main.c:42-74 | in any interleaving the register and latch end as the run of its timer ticks alone leaves them |
| `Events.TicksSameEntropy` | firmware/main.c:66-74 | ticks from two states with the same register and latch end with the same register and latch |
| `Events.EntropyFromPowerOn` | firmware/main.c:13-15 | from power-on, whatever serial bytes and edges are interleaved, the register is the seed with the reference extractor's bits from the tick samples mixed in |
| `Events.UndefinedOnlyWhenNothingOwed` | firmware/main.c:44-48 | in a reachable state the handler is undefined exactly for a non-control byte when the count is 0 |
| `Events.EdgeCommutes` | firmware/main.c:42-64 | a chip-select edge and a timer tick or serial byte give the same state in either order |
| `Debiasing.Ticks` | firmware/main.c:66-74 | a run of timer ticks changes nothing of the transport state |
| `Debiasing.Debias` | firmware/main.c:67-71 | the bits the sampler delivers are 0 or 1 and each uses up two samples (a pending latch counting as one) |
| `Debiasing.LatchAfter` | firmware/main.c:67-71 | after at least one tick the latch is 0, 1 or empty |
| `Debiasing.TicksFactor` | firmware/main.c:66-74 | the register after a run of ticks is the old register with the sampler's output bits mixed in, in order; the latch ends as `LatchAfter` |
| `Debiasing.RunLength` | firmware/main.c:67-71 | the length of the leading run of equal samples: all of them equal the value and the next one differs |
| `Debiasing.TransitionExtractor` | firmware/main.c:67-71 | the reference extractor (each run of equal samples that a different sample ends emits its value) emits only 0 or 1 and at most one bit per two samples |
| `Debiasing.PendingRun` | firmware/main.c:67-71 | with a bit pending, the sampler emits that bit when its run ends and restarts empty after the ending sample |
| `Debiasing.DebiasIsTransitionExtractor` | firmware/main.c:67-71 | from an empty latch the sampler is exactly the reference extractor |
| `Debiasing.TicksFromPowerOn` | firmware/main.c:14-15 | from power-on the register is the seed with the reference extractor's bits mixed in |
| `Debiasing.ConstantNoiseMixesNothing` | firmware/main.c:67-71 | a constant pin level yields no bits |
| `Debiasing.FourSamples` | firmware/main.c:67-71 | the samples 0,0,1,1 yield the bit 0, where non-overlapping pairs would yield nothing |
| `Debiasing.SixSamples` | firmware/main.c:67-71 | the samples 0,0,0,1,1,0 yield the bits 0 and 1 |
| `Debiasing.PairSamples` | firmware/main.c:67 | port B levels presenting each bit b as the samples b then not b, two per bit |
| `Debiasing.ExtractorEmitsAny` | firmware/main.c:67-71 | the extractor delivers any sequence of bits, given each as a pair of differing samples |
| `Debiasing.SeedReachesZero` | firmware/main.c:66-74 | from power-on, 50 timer ticks can leave the register at zero |
| `Transport.Exchange` | firmware/main.c:42-53 | a run of serial bytes leaves the register and latch unchanged |
| `Transport.Replies` | firmware/main.c:42-53 | the USIDR contents the handler leaves, one per byte exchanged |
| `Transport.Countdown` | firmware/main.c:48-49 | the windows for counts n down to 1, n of them |
| `Transport.DataBytes` | firmware/main.c:46-50 | with n owed, n non-control bytes are all accepted, return the windows for n down to 1, and leave nothing owed |
| `Transport.Session` | firmware/main.c:42-53 | after a control byte n and n data bytes, USIDR has held n and then the windows for n down to 1; afterwards any further data byte is undefined |
| `Transport.ExchangeCons` | firmware/main.c:42-53 | exchanging a first byte and then the rest is one exchange |
| `Transport.TwoByteWindows` | firmware/main.c:48 | for count 2 the bytes sent are bits 15..22 and then bits 7..14 of the register |
| `Transport.Received` | firmware/main.c:42-53 | the master receives one byte per exchange, the first being USIDR before any byte |
| `Transport.ReceivedLags` | firmware/main.c:42-53 | what the master receives is the handler's USIDR contents shifted by one exchange, starting with the old USIDR |
| `Transport.AcceptsAppend` | firmware/main.c:42-53 | two runs of bytes in turn are defined exactly when the first is and the second is from where the first leaves the device |
| `Transport.ReceivedWindows` | firmware/main.c:46-50 | with k owed, k data bytes and a request deliver the current USIDR and then the windows for k down to 1 to the master |
| `Transport.ReceivedCons` | firmware/main.c:42-53 | the master receives the current USIDR on the first exchange and the rest from the state that exchange leaves |
| `Transport.ReceivedAfterRequest` | firmware/main.c:44-50 | after a request n, n data bytes and a request deliver n and then the windows for n down to 1 |
| `Transport.WireSession` | firmware/main.c:42-53 | a master that sends n, n data bytes and a further request receives the old USIDR, n and the windows for n down to 1 |
| `Transport.DataAfterSessionUndefined` | firmware/main.c:46-48 | if the extra exchange that clocks out the last window is a data byte, the handler's shift is undefined |
| `Transport.SeedSession` | firmware/main.c:14 | from power-on and a chip-select edge, a master that sends 2, two data bytes and a request receives 0, 2, 0xAA, 0xAA |
| `Transport.ReselectResumes` | firmware/main.c:55-64 | after deselect and reselect the owed count is kept and the next data byte sends the window for it |
| `Sessions.Loads` | firmware/main.c:42-53 | the USIDR contents after each byte of an interleaving, one per byte |
| `Sessions.RegistersAtBytes` | firmware/main.c:42-74 | the register seen by each byte of an interleaving, one per byte; without timer ticks every byte sees the starting register |
| `Sessions.WindowsAt` | firmware/main.c:48-49 | the k-th window is the byte for count n-k read from the k-th register value |
| `Sessions.WindowsAtConstant` | firmware/main.c:48-49 | with one register value throughout, the windows are the countdown of that register |
| `Sessions.ByteRunIsExchange` | firmware/main.c:42-53 | a run of byte events alone is defined exactly when the transport accepts its bytes, and ends and loads as the transport's exchange |
| `Sessions.EventCons` | firmware/main.c:42-74 | one event and then the rest is one interleaving |
| `Sessions.InterleavedWindows` | firmware/main.c:42-74 | data bytes among ticks and edges are all defined only if at most the owed number arrive; each loads the window for the count it finds, read from the register at that byte, and the count drops by one per byte |
| `Sessions.InterleavedSession` | firmware/main.c:42-74 | a request n and n data bytes among ticks and edges load n and then the windows for n down to 1, each read from the register at its own byte, and leave nothing owed |
| `Sessions.TicklessSession` | firmware/main.c:42-64 | without timer ticks such a session loads n and the countdown of the starting register, as the transport alone does |
| `Sessions.TickMidSession` | firmware/main.c:42-74 | from the seed, a mixing tick pair 0,1 between the two data bytes makes the loads 2, 0xAA, 0x55 |

## Left out

- Device bring-up in `main` (`firmware/main.c:19-33`) and the empty idle loop (`firmware/main.c:34-35`). These are one-time register writes with nothing to state. `PowerOn` takes only their effect on the USI wire mode: it is off.
- Preemption inside a handler and torn reads of the 32-bit register. Every handler is one atomic event. Any order of events is allowed (`Events.Run`).
- Hardware register semantics. The write-1-to-clear overflow flags (`firmware/main.c:52`, `59`, `73`) are booleans set to false. The USI's bit shifting and the counting of clock edges are not modelled: the byte received is a parameter, and the clock counter is a field that only the pin-change handler writes.
- `Firmware.TimerStep`: the timer handler reads `PINB` twice (`firmware/main.c:67` and `71`). The model assumes both reads return the same level `pinb`. A level change between the two reads is not captured.
- The sampling rate and timing margins (`firmware/main.c:66`), and any claim about entropy quality.
- `Firmware.SerialStep`: the C shift `8*BytesToSend-1` is undefined when the count is 0 or above 4. The decrement from 0 would wrap to 255. The precondition `SerialDefined` rules these cases out and the model invents no result for them. This is not a corner case: the master must make one more exchange to receive the last window, and if that byte is a data byte the shift is undefined (`Transport.DataAfterSessionUndefined`). The model therefore describes only sessions that the next request closes (`Transport.WireSession`). `Events.UndefinedOnlyWhenNothingOwed` shows that this is the only undefined case reachable.
- A continuous-streaming protocol that returns the register's low byte on every exchange is not part of this model. `firmware/main.c` implements only the count-negotiated protocol.
- Gating of byte events on the wire-mode bit. The USI exchanges bytes whether or not `USIWM0` is set in the model, and a byte event is allowed in any state. `Transport.SeedSession` starts after a chip-select edge, which sets the wire mode, but the other transport lemmas start from any state.
