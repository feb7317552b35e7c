# STM32L4 HAL core: USART driver, monotonic timer and buffer writer

This project is a Dafny model of three pieces of the `stm32l4xx-hal` crate,
with proofs of what they promise.

- **The USART driver** (`src/serial.rs`), in `serial.dfy` and `dma.dfy`.
  - The register block of a USART is the class `Serial.Registers`. Its fields
    are the hardware registers: ISR, RDR, TDR, BRR and CR1. The driver's
    handles `Serial`, `Tx` and `Rx` are values that refer to that block.
  - Configuration computes the baud divisor and panics when the divisor is
    below 16 (or the baud rate is zero). On success it writes BRR and sets
    UE, RE and TE in CR1.
  - `listen` and `unlisten` each change one interrupt-enable bit.
  - `read` turns one ISR snapshot into an error, a byte or WouldBlock, in a
    fixed priority order.
  - `write` touches TDR only when TXE is set. `flush` reports TC.
  - `circ_read` programs a DMA1 channel (class `Dma.Channel`) to stream
    received bytes into a double buffer.
  - The macro binds the invocation's `tx:` label to the receive-channel
    parameter. So `circ_read` is generated for DMA1 channel 4 (USART1) and
    channel 7 (USART2). `Serial.RxDmaChannel` states exactly that.
  - The pin-pair table (`Pins::REMAP`) is `Serial.Remap`. The remap code is
    never used when configuring, and the registers written do not depend on
    the pins.
- **The monotonic timer** (`src/time.rs`), in `time.dfy`.
  - `MonoTimer` is a class holding the frequency and the last recorded
    counter value.
  - The cycle counter is an input. A single reading is passed to the one-shot
    operations. For `delay`, the sequence of successive readings is passed in,
    and the model reports whether the delay returned before the readings ran
    out.
  - Durations come in already converted to ticks.
- **The bounded buffer writer** (`Wrapper` in `examples/serial_vcom.rs`), in
  `vcom.dfy`.
  - The buffer is an `array<u8>` and the offset a field.
  - `write_str` copies a string's bytes in place or fails without changes.
    The invariant `offset <= buf.len()` is the class's `Valid()`.

`machine.dfy` holds the integer widths (`u8` … `u64`), `Option` and `Result`.
`nb.dfy` holds the `nb` crate's result type. `Nb.Poll` stands for
`nb::Result<(), Void>`: it has only `Ready` and `Pending`, so WouldBlock is the
transmitter's only failure.

Where the code and its own doc comments differ, the model follows the code:
- `delay` is documented as pausing for the given duration
  (src/time.rs:45), but its else branch never returns for a non-zero budget
  (see Findings).
- `wait` is documented as the non-blocking variant of `delay`
  (src/time.rs:63), but it always reports WouldBlock and never completes.

Two further points of what the code does: `free` resets no register, and the
DMA transfer count is cut to 16 bits.

The source declares `ticks` in `delay` without `mut` and then decrements it.
The model treats it as mutable.

## Model

| member | source | states |
|---|---|---|
| `Serial.RemapIdentifiesPins` | src/serial.rs:46-56 | For one USART, the remap code in the pin-pair table determines the pin pair. |
| `Serial.PinsServeOneUsart` | src/serial.rs:46-56 | No pin pair is accepted by both USART1 and USART2. |
| `Serial.BaudDivisor` | src/serial.rs:107-108 | The divisor is accepted exactly when the baud rate is non-zero and 16 × baud ≤ bus clock. A zero baud rate is a divide-by-zero panic. An accepted divisor is ≥ 16 and is the integer quotient: q·baud ≤ pclk < (q+1)·baud. |
| `Serial.Configure` | src/serial.rs:86-119 | The USART's enable bit is set and its reset bit left clear on the bus, whatever the outcome. It succeeds exactly when `BaudDivisor` accepts the kernel clock (pclk2 for USART1, pclk1 for USART2). On success BRR holds the divisor and CR1 has UE, RE and TE set with both interrupt enables clear. On a panic BRR and CR1 are unchanged. `free` on the configured `Serial` gives back exactly the register block and pins it was configured with (src/serial.rs:158-160). Requires a pin pair from the table and the USART's own bus. |
| `Serial.WithInterrupt` | src/serial.rs:122-143 | A read-modify-write of one interrupt-enable bit sets that bit to the requested value and keeps the other interrupt bit and UE, RE, TE. |
| `Serial.WithInterruptIdempotent` | src/serial.rs:122-143 | Repeating `listen` or `unlisten` changes nothing more. |
| `Serial.UnlistenUndoesListen` | src/serial.rs:122-143 | `unlisten` after `listen` restores CR1 when the interrupt was disabled before. |
| `Serial.WithInterruptCommutes` | src/serial.rs:122-143 | Changes to the RXNE and TXE interrupt bits do not interfere with each other. |
| `Serial.Serial.Listen` | src/serial.rs:122-131 | CR1 becomes `WithInterrupt(old CR1, event, true)`. Only CR1 may change. |
| `Serial.Serial.Unlisten` | src/serial.rs:134-143 | CR1 becomes `WithInterrupt(old CR1, event, false)`. Only CR1 may change. |
| `Serial.Serial.Split` | src/serial.rs:146-155 | Both halves are bound to the same USART and register block. No register is written. |
| `Serial.Serial.Free` | src/serial.rs:158-160 | Gives back the register block and the pins unchanged. No register is written. |
| `Serial.FirstRaised` | src/serial.rs:170-177 | The scan returns the position of the first error in the list whose ISR flag is raised: every earlier flag is clear, and the result is the list length when none is raised. |
| `Serial.FirstRaisedOnPriority` | src/serial.rs:170-177 | On the order Parity, Framing, Noise, Overrun, the scan stops at the first of PE, FE, NF, ORE that is set. |
| `Serial.ReadPriority` | src/serial.rs:170-177 | `read` reports the i-th error of the priority order if and only if its flag is set and every earlier flag is clear. An earlier flag wins whatever later flags say. |
| `Serial.ReadOkIff` | src/serial.rs:178-182 | `read` returns a byte if and only if PE, FE, NF and ORE are clear and RXNE is set. The byte is RDR's. |
| `Serial.ReadWouldBlockIff` | src/serial.rs:183-185 | `read` returns WouldBlock if and only if none of PE, FE, NF, ORE, RXNE is set. |
| `Serial.ReadNeverExtensible` | src/serial.rs:170-185 | `read` never reports the hidden `_Extensible` error. |
| `Serial.ParityWinsOverFramingAndData` | src/serial.rs:170-172 | With parity, framing and data-ready all set, `read` reports Parity. |
| `Serial.Rx.Read` | src/serial.rs:166-186 | The if-chain over one ISR snapshot gives the result of the priority scan `ReadOutcome`. It writes no register: the method has no modifies clause. |
| `Serial.TransferCount` | src/serial.rs:238-240 | The programmed count equals 2 × half-length if and only if the half-length is below 32768. |
| `Serial.TransferCountWraps` | src/serial.rs:239 | The 16-bit cast repeats every 32768 half-length units. A half-length of 32768 programs a count of 0. |
| `Serial.Rx.CircRead` | src/serial.rs:225-276 | The DMA channel is the one the macro binds (4 or 7). After the call: CMAR is the buffer's first address, CPAR is RDR's address, CNDTR is `TransferCount(half-length)`, and CCR is byte-wise, circular, memory-increment, peripheral-to-memory, high priority and enabled, with its interrupt-enable bits unchanged. Returns the buffer and the channel. Only the channel is modified. |
| `Serial.Tx.Flush` | src/serial.rs:196-205 | Ready if and only if TC is set, otherwise WouldBlock. Writes nothing. |
| `Serial.Tx.Write` | src/serial.rs:207-221 | Ready if and only if TXE is set, and then TDR holds the byte. Otherwise WouldBlock with TDR unchanged. Only TDR may change. |
| `Time.MonoTimer.constructor` | src/time.rs:24-33 | The frequency is the system clock and the recorded count is the counter read at creation. |
| `Time.MonoTimer.UpdateCount` | src/time.rs:36-38 | The recorded count becomes the current reading. Only the recorded count may change, so the frequency stays. |
| `Time.HasWrappedDetectsOneWrap` | src/time.rs:88-91 | Less than one period after the recorded count, the wrap check fires if and only if the counter passed its maximum. |
| `Time.HasWrappedBlindToFullPeriod` | src/time.rs:88-91 | Adding a full counter period does not change the wrap check's answer, so a second wrap goes unseen. |
| `Time.HasWrappedNearTop` | src/time.rs:88-91 | With recorded count 0xFFFFFFF0, reading 5 is a wrap and reading 0xFFFFFFF5 is not. |
| `Time.MonoTimer.Wait` | src/time.rs:64-66 | The non-blocking delay always reports WouldBlock. |
| `Time.MonoTimer.LimitValue` | src/time.rs:96-98 | The limit value of the up-counting timer is 0. |
| `Time.MonoTimer.Start` | src/time.rs:71-76 | The instant holds a new timer with the same frequency, counting from the current reading. |
| `Time.MonoTimer.Stop` | src/time.rs:80-85 | Returns a new timer with the same frequency, counting from the current reading. |
| `Time.Remaining` | src/time.rs:50 | The recorded count plus the remaining ticks is exactly `u32::MAX`, so the subtraction never underflows and stays in u32. |
| `Time.RemainingEndsAtWrap` | src/time.rs:50 | One tick after the remaining ticks, the counter reads zero. |
| `Time.RemainingNearTop` | src/time.rs:50 | With recorded count 0xFFFFFFF0, 15 ticks remain. |
| `Time.AfterWrap` | src/time.rs:51-55 | The wrap step is taken only with `ticks > remaining`. It lowers the u64 budget by exactly `remaining`, with no underflow, and leaves at least 1. It shrinks the budget if and only if `remaining > 0`. |
| `Time.DelayAcrossOneWrap` | src/time.rs:50-55 | Recorded count 0xFFFFFFF0 and budget 32: the wrap branch is taken and 17 ticks remain after it. |
| `Time.Elapsed` | src/time.rs:58 | The wrapping difference `current - last`, added back to `last` modulo 2^32, gives `current`. |
| `Time.ElapsedAfter` | src/time.rs:58 | Reading the counter `e` ticks after `last` (e < 2^32), the wrapping difference is `e`. |
| `Time.MonoTimer.DelayAsWritten` | src/time.rs:46-61 | The loop as written. A zero budget returns after the single `update_count` read, with that reading recorded. A non-zero budget never returns, for any sequence of counter readings. |
| `Time.MonoTimer.Delay` | src/time.rs:46-61 | The loop with the else branch waiting until `current - lastCount >= ticks`. The zero budget behaves as in `DelayAsWritten`. For a budget within the current period: it returns at the first reading showing the whole budget elapsed, never earlier, and it returns whenever some reading shows that. |
| `SerialVcom.Placed` | examples/serial_vcom.rs:53-55 | Copying in the string gives the string's bytes at positions offset … offset+len−1 and the old bytes everywhere else. The prefix up to the new offset is old prefix + string. |
| `SerialVcom.PlacedTwice` | examples/serial_vcom.rs:44-62 | Two writes placed one behind the other are one write of the concatenation. |
| `SerialVcom.WriteStep` | examples/serial_vcom.rs:49-58 | A write succeeds exactly when the string fits behind the offset. Then the new buffer is the old one with the string placed at the offset, and the offset grows by the string length. |
| `SerialVcom.WriteAllPlacesConcat` | examples/serial_vcom.rs:44-62 | A run of writes succeeds exactly when all pieces together fit behind the offset. Then it has copied their concatenation there, advanced the offset by its length and left every other byte unchanged. |
| `SerialVcom.Wrapper.constructor` | examples/serial_vcom.rs:36-41 | The wrapper starts at offset 0 over the caller's buffer, with nothing written. The constructor may not modify the buffer. |
| `SerialVcom.Wrapper.WriteStr` | examples/serial_vcom.rs:45-61 | Succeeds if and only if the string fits in `buf.len() - offset`. On failure, buffer and offset are unchanged. On success, the buffer is the old buffer with the string placed at the old offset, the offset grows by the string length, and the written prefix is old prefix + string. `offset <= buf.len()` is kept. The call agrees with `WriteStep` on the old buffer and offset, so `WriteAllPlacesConcat` holds for a run of calls. |

## Left out

- Volatile access, the compiler fence in `circ_read` and the order of the
  register writes: each operation is modelled by the register state it leaves.
  Addresses are plain 32-bit numbers.
- The effect of the bus reset pulse on the USART's registers: the model
  records the enable and reset bits, but the registers keep their values
  through the pulse.
- The DMA transfers themselves and `CircBuffer::new`: the `dma` module is not
  part of this model. `circ_read` stops at the values it programs.
- Hardware side effects of reading RDR (clearing RXNE): the code does not
  express them.
- The compile-time resolution of the `Pins` trait: it is a `requires` that
  the pin pair is in the table.
- Concurrency between the split halves: they share the register block, and
  the frames show that they touch disjoint registers. `Rx.Read` writes
  nothing, `Tx.Write` writes only TDR, and `Rx.CircRead` writes only the DMA
  channel.
- `Frequency::ticks_in`, `tick` and `get_current`, and the DWT peripheral: the
  `ticklock` crate is not part of this model. Tick counts and counter
  readings are inputs, and enabling the cycle counter is not modelled.
- `TimerInstant::now`: modelled as the instant holding the timer it is given.
- Time.MonoTimer.Delay: the real-time meaning of the wrap path (how long the
  waits take) is not stated. Only the budget step (`AfterWrap`) and the
  in-period wait are specified, and termination is relative to the given
  readings.
- Debug-build overflow panics: `get_current() - lastCount` is modelled as
  wrapping 32-bit subtraction, as a release build computes it.
  `buffer.len() * 2` cannot overflow for a buffer that fits in the address
  space.
- `examples/rtc.rs` and `main` of `examples/serial_vcom.rs`: board bring-up
  and demo code over drivers that are not part of this model.

## Findings

| source | as written | input that shows it | evidently intended | confidence | as-written member | corrected member |
|---|---|---|---|---|---|---|
| src/time.rs:57-59 | The else branch spins while `ticks < current - lastCount` and never lowers `ticks`. The outer loop then repeats the same branch forever, and the wrap branch never brings `ticks` to 0, so `delay` never returns for a non-zero budget. | `lastCount = 0`, `ticks = 10`, counter readings 0, 1, 2, … | Wait until `current - lastCount >= ticks`, then return. | High: proved for every sequence of readings; not executed. | `Time.MonoTimer.DelayAsWritten` | `Time.MonoTimer.Delay` |
