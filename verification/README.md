# TM1637 bit-bang driver, modelled in Dafny

This project models the protocol engine of `tm1637-rs`, a Rust driver for the
TM1637 LED display controller. The chip talks over a two-wire bus: a clock
line (CLK) and a data line (DIO). The model covers three layers.

- **Encoding** (`encoding.dfy`, module `Encoding`). This layer holds the
  auto-increment opcode `0x40`. It builds the set-address command
  `0xC0 | (address & 0x0F)` and the display-control command
  `0x88 | (level & 0x07)`. It also holds the 16-entry hex-digit
  segment table `DIGITS`.
- **Transport** (`transport.dfy`, module `Transport`). This layer covers
  `start` (`Transport.Start`), `stop` (`Transport.Stop`), and the byte
  transfer `send` (`Transport.Send`, and the loop form `Transport.SendLoop`). `send` shifts eight bits out
  least-significant first. It then releases DIO for the acknowledge clock
  and reads DIO up to 255 times, waiting for the chip to pull it low.
- **Transactions** (`driver.dfy`, module `Driver`). This layer covers
  `init` (`Driver.Init`), `clear` (`Driver.Clear`), `print_raw`
  (`Driver.PrintRaw`), `print_hex` (`Driver.PrintHex`), `print_raw_iter`
  (`Driver.PrintRawIter`) and `set_brightness` (`Driver.SetBrightness`). Each is one start → command byte → data bytes → stop
  sequence. The sequence ends at once, without a stop condition, when a
  byte is not acknowledged.

Every pin call (`set_low`, `set_high`, `delay_us`, `is_low`) is one `Event`
of a trace (`pins.dfy`). An operation is a pure function. It takes the
levels that successive DIO reads return (`samples`, read from index `pos`)
and returns a `Step`: the event trace, the `Result`, and the index of the
next unread sample. A read past the end of `samples` returns `High`. That is
the level of the released, pulled-up line when no chip answers.

The properties are stated in terms of a model of the receiving chip (`receiver.dfy`, module `Receiver`). It watches the levels the
trace drives and recognises the following:

- a falling DIO edge while CLK is high, as a start condition;
- a rising DIO edge while CLK is high, as a stop condition;
- nine rising CLK edges after a condition or a completed frame, as one byte
  frame.

A frame holds eight data bits, least-significant first, then the acknowledge
clock. The transaction theorems say what this receiver sees. When every byte
is acknowledged, it sees one start condition, the command and each payload
byte in order, and one stop condition. Otherwise the run fails at one byte:
every byte before it was acknowledged, that byte was not, and nothing is sent
after it (`Driver.FailsAt`). The receiver then sees the start condition and
the bytes up to and including that one, and no stop condition. `bits.dfy`
proves that the LSB-first shift round-trips (`Bits.RoundTrip`).

Three facts about the code shape the model:

- **Delay length.** `DELAY_USECS` is `1000 / 500 = 2` µs (src/lib.rs:130-132).
  `Encoding.DelayUsecs` is that value.
- **Pin faults.** Every pin call unwraps its result, so a fault panics and
  `Error::IO` is never returned. Pins are infallible in the model, and `Ack`
  is the only error.
- **No letters.** The code has a segment table for hex digits only.

## Model

| member | source | states |
|---|---|---|
| Encoding.AddressCommand | src/lib.rs:60 | the set-address byte lies in 0xC0..0xCF for every `u8` address. Its high nibble is the opcode 0xC0 and its low nibble is the address's low nibble. |
| Encoding.AddressCommandEqual | src/lib.rs:136-137 | two addresses give the same command if and only if their low four bits agree |
| Encoding.BrightnessCommand | src/lib.rs:70 | the brightness byte lies in 0x88..0x8F with the display-on bit 0x08 set. Its low three bits are the level's low three bits, and the opcode bits are never disturbed. |
| Encoding.BrightnessCommandEqual | src/lib.rs:139-140 | two levels give the same command if and only if their low three bits agree |
| Encoding.HexPattern | src/lib.rs:142-147 | every table entry is a non-blank pattern with the decimal-point bit clear. Any `u8` indexes the table after masking. |
| Encoding.HexPatternGlyph | src/lib.rs:142-147 | the pattern for a digit lights exactly the segments of the conventional seven-segment glyph of its low nibble (0-9, A, b, C, d, E, F) |
| Encoding.DecodePattern | src/lib.rs:142-147 | reading a pattern back gives a nibble whose table entry is that pattern, or nothing when no entry matches |
| Encoding.DigitsDistinct | src/lib.rs:142-147 | no two hex digits share a segment pattern |
| Encoding.DecodeHexPattern | src/lib.rs:50 | the 16 patterns are pairwise distinct, so decoding the lit segments returns `d & 0xF` |
| Encoding.HexPatternMasks | src/lib.rs:50 | `d` and `d + 16k` (mod 256) select the same pattern |
| Bits.LsbBitsAt | src/lib.rs:80-85 | testing bit 0 and then shifting right by one yields bit `i` of the byte at step `i` |
| Bits.RoundTrip | src/lib.rs:77-88 | reassembling the eight shifted-out bits LSB-first gives back the byte |
| Transport.ShiftOut | src/lib.rs:78-88 | the data phase of `send` is exactly four pin actions per bit, 32 in all |
| Transport.ShiftOutGroup | src/lib.rs:78-88 | the `i`-th group of four events of the shift loop clocks out the `i`-th shifted bit |
| Transport.SendBit | src/lib.rs:78-88 | events 4i..4i+3 of `send` are ClkLow, DIO set to bit i of the byte, ClkHigh, Delay. Bits therefore go out LSB first. |
| Transport.Poll | src/lib.rs:94-101 | the ACK poll touches neither output line and reads at most `budget` samples. It succeeds if and only if one of the next `budget` samples is low. On failure it returns `Err(Ack)` after reading all of them. |
| Transport.Send | src/lib.rs:76-102 | `send` reads at most 255 samples. It returns `Ok` if and only if one of them is low, and otherwise `Err(Ack)` after exactly 255 reads. |
| Transport.PollAckAt | src/lib.rs:94-99 | if sample k is the first low one, the poll stops with `Ok` after exactly k+1 reads and k delays |
| Transport.PollTimeout | src/lib.rs:94-101 | if no sample is low, the poll returns `Err(Ack)` after `budget` reads, each followed by a delay |
| Transport.WaitsCount | src/lib.rs:94-99 | k failed polls contain exactly k reads and k delays |
| Transport.SendAckedAt | src/lib.rs:90-97 | the exact `send` trace when the k-th read (k < 255) is the first low one: data bits, ACK clock, k failed polls, one final read. The result is `Ok`, with k+1 reads and k delays. |
| Transport.SendUnacknowledged | src/lib.rs:90-101 | when no read is low, `send` reads all 255 samples. Its trace is the data bits and the ACK clock, then one failed poll per sample read, and it returns `Err(Ack)`. |
| Transport.StartOnWire | src/lib.rs:104-112 | `start` is a start condition to the chip, with DIO falling while CLK is high, and nothing else |
| Transport.StopOnWire | src/lib.rs:114-123 | `stop` is a stop condition to the chip, with DIO rising while CLK is high, and nothing else |
| Transport.ShiftOutClocks | src/lib.rs:78-88 | the shift loop emits one clocked group per bit, for the bits of the byte LSB first |
| Transport.ClockOutOnWire | src/lib.rs:80-87 | the receiver latches clocked bits in order and recognises no condition while they are clocked |
| Transport.ShiftOutOnWire | src/lib.rs:78-88 | the shift loop clocks the bits into the chip one per rising CLK edge, LSB first, without a spurious condition |
| Transport.SendOnWire | src/lib.rs:76-102 | whatever the ACK outcome, the chip receives exactly one frame, and it carries the byte sent |
| Transport.ShiftLoop | src/lib.rs:77-88 | the imperative shift loop (test bit 0, set DIO, shift right, clock) emits exactly the data phase `ShiftOut(b, 8)` |
| Transport.PollLoop | src/lib.rs:90-101 | the imperative poll loop with its early return on a low read emits exactly the run that `Poll` describes, with the same result and read position |
| Transport.SendLoop | src/lib.rs:76-102 | the imperative `send` (shift loop, acknowledge clock, poll loop) produces exactly the run that `Send` describes |
| Driver.SendAll | src/lib.rs:61-63 | sending no bytes does nothing and reads nothing. Otherwise reads only move forward. |
| Driver.Enclose | src/lib.rs:59-65 | every transaction trace begins with the `start` events. A successful one ends with the `stop` events. The result and the read position come from the byte transfers. |
| Driver.Transaction | src/lib.rs:54-66 | a transaction always reads at least one DIO sample, for the command's ACK |
| Driver.SendAllOnWire | src/lib.rs:61-63 | on success the chip receives every byte, in order. On failure it receives a non-empty prefix of them. |
| Driver.SendAllStopsAtFirstFailure | src/lib.rs:61-63 | a failed run fails at one byte: every earlier byte was acknowledged, that byte was not, and the run is those transfers and nothing after |
| Driver.FailedRunOnWire | src/lib.rs:61-63 | a run that fails at its n-th byte delivers exactly the first n bytes to the chip |
| Driver.SendAllFailsOnWire | src/lib.rs:61-63 | a failed run fails at one byte, after all earlier bytes were acknowledged, and the chip has received exactly the bytes up to and including it |
| Driver.TransactionOnWire | src/lib.rs:54-66 | when every byte is acknowledged the chip sees start, the command, each payload byte in order, then stop |
| Driver.TransactionFailsOnWire | src/lib.rs:54-66 | when a byte is not acknowledged, every earlier byte was acknowledged and nothing is sent after it. The chip sees start, the command and the payload up to that byte, and no stop. |
| Driver.SendAllEndsAtFailure | src/lib.rs:61-63 | a failed run ends with the 255 failed polls of its last byte, so no later byte is sent |
| Driver.TransactionAborts | src/lib.rs:59-65 | a failed transaction returns `Err(Ack)`, and its trace ends with the failed polls: no stop condition follows |
| Driver.SendAllPrompt | src/lib.rs:61-63 | when the chip acknowledges every byte at once, every byte is sent and exactly one sample is read per byte |
| Driver.TransactionPrompt | src/lib.rs:59-65 | with a promptly acknowledging chip, a transaction returns `Ok` after 1 + n reads |
| Driver.TransactionNoChip | src/lib.rs:59-60 | with no chip answering, the trace is `start`, the command byte and 255 failed polls, and the result is `Err(Ack)` |
| Driver.InitOnWire | src/lib.rs:31-37 | `init` sends the single byte 0x40 between a start and a stop condition. If that byte is not acknowledged, nothing follows it. |
| Driver.SetBrightnessOnWire | src/lib.rs:68-74 | `set_brightness` sends exactly one byte, 0x88 with the low three bits of `level` set into it. It aborts without a stop when that byte is not acknowledged. |
| Driver.PrintRawOnWire | src/lib.rs:43-45 | an acknowledged `print_raw` sends the address command and then the bytes in order, then stop. With an empty slice, only the address command is sent. |
| Driver.PrintRawFailsOnWire | src/lib.rs:43-45 | a failed `print_raw` stops at its first unacknowledged byte. The chip has seen the address command and the bytes up to that one, and no stop. |
| Driver.PrintHexOnWire | src/lib.rs:47-52 | `print_hex` sends the address command, then `DIGITS[d & 0xF]` for each digit in order |
| Driver.HexPatternsDecode | src/lib.rs:47-52 | each pattern `print_hex` sends decodes back to its digit's low nibble |
| Driver.ClearIsPrintRaw | src/lib.rs:39-41 | `clear()` has the same trace and result as `print_raw(0, &[0, 0, 0, 0])` |
| Driver.PrintRawAddressMasked | src/lib.rs:60 | `print_raw` behaves identically for addresses that agree in their low four bits |
| Driver.PrintHexDigitsMasked | src/lib.rs:50 | `print_hex` behaves identically for digit strings that agree in their low nibbles |
| Driver.SetBrightnessLevelMasked | src/lib.rs:70 | `set_brightness` behaves identically for levels that agree in their low three bits |

## Left out

- Pin faults. Every pin call in the code is `.map_err(|_| Error::IO).unwrap()`, so a fault panics. Pins are infallible here, and `Error::IO` is not modelled because the code never returns it.
- Time. A `Delay` event stands for one `delay_us(DELAY_USECS)` call. The microsecond value is only the constant `Encoding.DelayUsecs`.
- Electrical behaviour. DIO reads are an input sequence. The chip's pull-down during the acknowledge phase does not appear in the receiver's line levels, because the receiver follows only the levels the driver drives.
- `new` and the generic parameters and lifetimes of `TM1637`. They only borrow the pins and carry no behaviour.
- `print_raw_iter` over an infinite iterator. Payloads are finite sequences. An endless iterator never returns unless a byte goes unacknowledged.
- The demo program `examples/main.rs`. It is STM32 set-up code and an endless demo loop. It calls `new` with the two pins only, one argument fewer than src/lib.rs:27 takes. It passes the delay to `init`, `clear`, `print_hex`, `print_raw` and `set_brightness` instead, which the library signatures do not take.
- Driver.SendAll: the number of samples read is not tied to the number of `ReadDio` events for whole transactions. That link is stated per byte only, by `Transport.SendAckedAt`, `Transport.SendUnacknowledged` and `Transport.WaitsCount`.
