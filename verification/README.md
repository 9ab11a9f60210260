# Bit-banged SPI master: a Dafny model

`BW_SPI_V1.00.py` drives an SPI master on four Raspberry Pi GPIO pins:
chip select, clock (SCK), master-out (MOSI) and master-in (MISO).
`spi.transfer(data)` works in three steps:

- It spells four level strings for the configured clock polarity (CPOL),
  clock phase (CPHA) and bit width `w`: select, clock, data-out and a
  "record trigger". Each is `2w + 3` half-cycles long.
- It walks them in lock-step. In each half-cycle it writes MOSI, SCK and CS,
  then reads MISO. On trigger half-cycles it also keeps the MISO level.
- It parses the kept levels, most significant bit first, with `int(..., 2)`.

The repository also holds a debug-flag check, `_debug`, and a waveform
printer, `display_sequence`.

The model has one module per concern:

- `Results`: the `Result`/`Option` wrappers and the two error cases.
- `Binary`: zero-padded binary numerals (`f"{data:0{w}b}"`) and `int(s, 2)`.
- `Levels`: level sequences and capture of the triggered levels.
- `Synthesis`: the four level strings for each (CPOL, CPHA) mode.
- `Engine`: the transfer loop over an abstract GPIO port.
- `Transfer`: the whole of `spi.transfer`, both range-checked and as written.
- `Display`: the state machine of `display_sequence`.
- `Debug`: `_debug`.

Levels are `bool`, with `true` meaning HIGH. CPOL and CPHA are `bool`; the
program uses them as 0/1 list indices. The port is an event trace. Each
`pinwrite` and `pinread` appends one `Event`. The MISO level is decided by a
`reader`, a function of the trace written so far. It stands for the slave
device. `IsLoopback` is the reader that returns the last MOSI level, which
models the script's MISO-to-MOSI wire.

The program does not check that `data` fits in `w` bits. The model keeps two
versions of the transfer:

- `Transfer.Transfer` returns `ValueOutOfRange` before any port operation
  (see Findings).
- `Transfer.TransferAsWritten` does what the code does.

On every word that fits, both drive the same half-cycles and, given the same
reader, return the same result (`Transfer.AsWrittenAgreesInRange`).

A bit width of 0 is not rejected up front, because the code has no such
check. The transfer runs its three half-cycles, records nothing, and fails in
`int("", 2)`; the model reports `EmptyBinaryString`.

## Model

| member | source | states |
|---|---|---|
| Binary.ParseBinary | BW_SPI_V1.00.py:181 | `int(s, 2)` fails exactly on the empty string; otherwise it yields a number below `2^n` whose `n`-digit numeral is `s`, for `n` the length of `s` |
| Binary.FromToBits | BW_SPI_V1.00.py:133-135 | for `data < 2^w`, the `w`-digit zero-padded numeral of `data` parses back to `data` |
| Binary.ToFromBits | BW_SPI_V1.00.py:181 | every digit string is the zero-padded numeral, at its own length, of the number it parses to |
| Levels.Capture | BW_SPI_V1.00.py:162-164 | one recorded bit per high trigger |
| Levels.CaptureAgrees | BW_SPI_V1.00.py:164 | only the levels at trigger half-cycles reach the result |
| Synthesis.ChipSelect | BW_SPI_V1.00.py:128 | `2w + 3` half-cycles, high exactly at the first and last |
| Synthesis.Clock | BW_SPI_V1.00.py:130-144 | `2w + 3` half-cycles at the CPOL level except `w` pulses, at the even half-cycles `2 .. 2w` |
| Synthesis.ClockPeriods | BW_SPI_V1.00.py:130-131 | the CPOL 0 clock has `w` high half-cycles and the CPOL 1 clock `w + 3` |
| Synthesis.DataOut | BW_SPI_V1.00.py:135-145 | each digit held for two half-cycles, starting at half-cycle 1 (CPHA 0) or 2 (CPHA 1); low everywhere else |
| Synthesis.Trigger | BW_SPI_V1.00.py:140-146 | `2w + 3` half-cycles, high exactly at the second half of each bit slot; `w` triggers |
| Synthesis.CaptureRecoversBits | BW_SPI_V1.00.py:135-142 | sampling the data-out line at the triggers gives back its digits, in order |
| Synthesis.Synthesize | BW_SPI_V1.00.py:126-146 | rejects a word outside `0 .. 2^w - 1` with `ValueOutOfRange`; otherwise four aligned sequences of `2w + 3` with `w` triggers, whose triggered data-out levels spell the word |
| Synthesis.SamplingInstants | BW_SPI_V1.00.py:128-146 | in the synthesized waveform of every word that fits, at every trigger, chip select is low. The clock has just made the edge its mode samples on: rising for modes 0 and 3, falling for 1 and 2. The data-out bit has been stable since the previous half-cycle |
| Synthesis.IdleOutsideSelect | BW_SPI_V1.00.py:128-146 | in the synthesized waveform of every word that fits, while chip select is high, the clock rests at CPOL, data-out is low and nothing is recorded |
| Synthesis.PaddedBinary | BW_SPI_V1.00.py:133-135 | the format spells at least `max(w, 1)` digits: exactly `w` for a word that fits in `w >= 1` bits, more than `w` when it does not fit, and then with a leading 1 (no zero added in front). The digits read back to the word |
| Synthesis.SynthesizeAsWritten | BW_SPI_V1.00.py:126-146 | without a range check, an oversized word makes the data-out line longer than the other three |
| Synthesis.LeadingDigitsSent | BW_SPI_V1.00.py:135-157 | a data-out line with more than `w` digits, cut to the trigger line's length, is sampled at its `w` leading digits |
| Engine.Zip | BW_SPI_V1.00.py:157 | `zip` is as long as the shortest sequence; element `i` holds the four levels at `i` |
| Engine.DriveCounts | BW_SPI_V1.00.py:157-162 | `n` half-cycles make `4n` port operations: `3n` writes and `n` MISO reads |
| Engine.DriveOrder | BW_SPI_V1.00.py:159-162 | every half-cycle writes MOSI, then SCK, then CS, then reads MISO, with the reader seeing those writes |
| Engine.LoopbackReads | BW_SPI_V1.00.py:159-162 | with MISO wired to MOSI, each read returns the data-out level just written |
| Engine.Exchange | BW_SPI_V1.00.py:155-164 | the loop leaves on the port exactly the reference trace `Drive`: `3n` writes and `n` MISO reads for `n` half-cycles (their order is `Engine.DriveOrder`). It records one bit per trigger: the MISO levels of the trigger half-cycles, in order |
| Transfer.ZipCut | BW_SPI_V1.00.py:157 | a data-out line longer than the other three is cut to their length |
| Transfer.Run | BW_SPI_V1.00.py:155-181 | on aligned sequences: the reference trace `Drive` of the zipped half-cycles, with its counts and order, and the parse of the bits it records. The parse fails only when nothing was recorded. The result's numeral is the recorded bits. Under loopback, the reads equal data-out |
| Transfer.Transfer | BW_SPI_V1.00.py:126-181 | no port traffic for an out-of-range word. A word that fits leaves the reference trace `Drive` of its synthesized half-cycles. Width 0 fails with `EmptyBinaryString`. The result fits in `w` bits and spells the MISO levels at the triggers. Under loopback it returns the word |
| Transfer.Loopback | BW_SPI_V1.00.py:126-181 | with MISO wired to MOSI and `w >= 1`, every word that fits comes back unchanged, in all four modes |
| Transfer.ScriptLoopback | BW_SPI_V1.00.py:223-225 | the script's `transfer(0b00001111)` and `transfer(0b11110000)` at `BITW = 8` return their words |
| Transfer.TransferAsWritten | BW_SPI_V1.00.py:126-181 | the unchecked transfer succeeds exactly when `w >= 1`, and its result always fits in `w` bits |
| Transfer.OversizedSendsLeadingDigits | BW_SPI_V1.00.py:133-157 | under loopback the unchecked transfer returns the number spelled by the `w` leading digits of the word's numeral |
| Transfer.OversizedWordExample | BW_SPI_V1.00.py:133-157 | under loopback at `w = 8`, `transfer(0x100)` returns `0x80` |
| Transfer.OversizedWordNotEchoed | BW_SPI_V1.00.py:133-157 | a word that does not fit in `w` bits is never returned, whatever MISO reads |
| Transfer.AsWrittenAgreesInRange | BW_SPI_V1.00.py:126-181 | on a word that fits, the unchecked and the checked transfer drive the same half-cycles, width 0 included, and return the same result for every reader |
| Display.Transition | BW_SPI_V1.00.py:192-196 | the glyph table has an entry for every move except from a known level back to `U`; each entry is two glyphs per line |
| Display.Render | BW_SPI_V1.00.py:184-202 | a drawing starts with the dotted glyph on both lines. It is `1 + 2n` glyphs wide and ends in the state of the last character |
| Display.RenderAccepts | BW_SPI_V1.00.py:198-202 | a drawing exists exactly when every character is `0`, `1` or `U`, and no `U` follows a `0` or `1` |
| Display.RenderGlyphs | BW_SPI_V1.00.py:198-202 | character `i` draws the table entry for the move from the state before it to its level |
| Display.LevelsDrawable | BW_SPI_V1.00.py:171-176 | every level sequence of a transfer can be drawn |
| Debug.AnyEnabled | BW_SPI_V1.00.py:21-24 | true exactly when some requested flag is enabled |
| Debug.Debug | BW_SPI_V1.00.py:17-30 | `NONE` turns everything off. Otherwise `ALL` turns everything on. Otherwise a call is on exactly when it names an enabled flag or names none |

## Left out

- `wait` (lines 102-106) and the `DELAY` pause inside the loop (line 166) are left out: they only let time pass, and the port trace has no clock.
- The debug prints of `transfer` (lines 168-180) are left out. The model covers the string building of `display_sequence` but not its two `print` calls (lines 204-205), which are output only.
- GPIO setup in `__init__` (lines 67-93) is left out because it is hardware configuration, as is `printinfo` (lines 95-100), which prints board data.
- The pin numbers (lines 47-50) are left out: the model names lines, not pins.
- The `CPOL`, `CPHA` and `BITW` class defaults (lines 63-65) become fields of `Mode`.
- The `__main__` block (lines 209-230) is reduced to its two loopback transfers (`Transfer.ScriptLoopback`). The `CLEANUP` pin release is left out as hardware I/O.
- Mode: CPOL and CPHA are `bool` and the width is a natural number, so the model leaves out the other values the class attributes could hold. A negative `BITW` makes the format spec `0-1b` invalid, and `ValueError` is raised at line 135 before any pin is written. A CPOL or CPHA of `-1` or `-2` is accepted by Python's negative list indexing at lines 144-146: `-2` behaves like 0 and `-1` like 1. Any other integer raises `IndexError` and a non-integer raises `TypeError` there, in both cases before any pin is written.
- Negative words are left out. The program formats them with a leading `-` and raises `KeyError` part-way through the loop, after some pins have been written. `Transfer.Transfer` rejects them before any port operation, and `Transfer.TransferAsWritten` takes only natural numbers.
- Transfer.Transfer: does not model an exception raised by the GPIO library itself. The program does not handle one either, and it does not restore chip select on error.
- The GPIO library, the timing of the hardware and the slave device are outside the model: the slave is the `reader` parameter.

## Findings

| source | as written | input that shows it | evidently intended | confidence | as-written member | corrected member |
|---|---|---|---|---|---|---|
| BW_SPI_V1.00.py:133-157 | The word is formatted with `f"{data:0{w}b}"`. For a word of `2^w` or more this spells more than `w` digits. `zip` then silently cuts the data-out line, so the `w` leading digits are sent and a different number comes back. | `BITW = 8`, `transfer(0x100)` with MISO wired to MOSI: the nine digits `100000000` are cut to `10000000`, and the call returns `0x80` | reject a word that does not fit in `w` bits before driving any pin | not executed | Transfer.OversizedWordExample | Synthesis.Synthesize |
