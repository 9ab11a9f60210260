/** `spi.transfer` end to end: synthesize the four sequences, zip them, run
    the transfer loop on the port, and parse the recorded bits with
    `int(..., 2)`.

    `Transfer` checks the word's range before touching the port; the program
    itself has no such check, and `TransferAsWritten` models what it does
    with a word that does not fit in the bit width.
 */
module Transfer {
  import opened Results
  import opened Binary
  import opened Levels
  import opened Synthesis
  import opened Engine

  /** `zip(SEL_SQ, CLK_SQ, DTO_SQ, TRG_SQ)` */
  function Cycles(q: Waveforms): seq<HalfCycle> {
    Zip(q.select, q.clock, q.dataOut, q.trigger)
  }

  /** Zipping four aligned sequences keeps each of them whole as a column. */
  lemma ZipAligned(q: Waveforms, len: nat)
    requires q.Aligned(len)
    ensures |Cycles(q)| == len
    ensures Triggers(Cycles(q)) == q.trigger
    ensures DataOuts(Cycles(q)) == q.dataOut
  {
  }

  /** Zipping cuts every line to the length of the shortest: when select,
      clock and trigger have a common length and data-out is no shorter, the
      zipped trigger column is the whole trigger sequence and the data-out
      column is data-out cut to that length. */
  lemma ZipCut(q: Waveforms, len: nat)
    requires |q.select| == |q.clock| == |q.trigger| == len <= |q.dataOut|
    ensures |Cycles(q)| == len
    ensures Triggers(Cycles(q)) == q.trigger
    ensures DataOuts(Cycles(q)) == q.dataOut[..len]
  {
  }

  /** The bits recorded by a transfer over `cycles` (`DATA`): the MISO levels
      of the trigger half-cycles, in order. */
  function Received(cycles: seq<HalfCycle>, reader: seq<Event> -> bool): (r: seq<bool>)
    ensures |r| == CountTrue(Triggers(cycles))
  {
    DriveCounts(cycles, reader);
    Capture(Triggers(cycles), ReadLevels(Drive(cycles, reader)))
  }

  /** The transfer, with the word range checked before any port operation.
      For a word that fits: `2w + 3` half-cycles, each writing MOSI, SCK and CS
      in that order and then reading MISO once; the result is the number
      whose `w`-bit numeral is the MISO levels read at the trigger
      half-cycles, and a transfer with MISO wired to MOSI returns the word
      itself. A width of 0 records no bit, and the final `int("", 2)` fails. */
  method Transfer(data: int, mode: Mode, reader: seq<Event> -> bool) returns (trace: seq<Event>, result: Result<nat>)
    ensures !(0 <= data < Pow2(mode.width)) ==> trace == [] && result == Failure(ValueOutOfRange)
    ensures 0 <= data < Pow2(mode.width) ==>
              var q := Synthesize(data, mode).value;
              var len := HalfCycles(mode.width);
              && trace == Drive(Cycles(q), reader)
              && result == ParseBinary(Received(Cycles(q), reader))
              && |trace| == 4 * len
              && WriteCount(trace) == 3 * len
              && ReadCount(trace) == len
              && |ReadLevels(trace)| == len
              && InOrder(trace, Cycles(q), reader)
              && (result.Failure? <==> mode.width == 0)
              && (result.Failure? ==> result.error == EmptyBinaryString)
              && (result.Success? ==>
                    && result.value < Pow2(mode.width)
                    && ToBits(result.value, mode.width) == Capture(q.trigger, ReadLevels(trace)))
    ensures 0 <= data < Pow2(mode.width) && mode.width >= 1 && IsLoopback(reader) ==>
              result == Success(data)
  {
    var synthesized := Synthesize(data, mode);
    if synthesized.Failure? {
      return [], Failure(synthesized.error);
    }
    trace, result := Run(synthesized.value, HalfCycles(mode.width), reader);
    if result.Success? {
      FromToBits(result.value, mode.width);
      FromToBits(data, mode.width);
    }
  }

  /** The second half of the transfer, for already synthesized, aligned
      sequences: run the transfer loop, then parse the recorded bits. */
  method Run(q: Waveforms, len: nat, reader: seq<Event> -> bool) returns (trace: seq<Event>, result: Result<nat>)
    requires q.Aligned(len)
    ensures trace == Drive(Cycles(q), reader)
    ensures result == ParseBinary(Received(Cycles(q), reader))
    ensures |trace| == 4 * len && WriteCount(trace) == 3 * len && ReadCount(trace) == len
    ensures |ReadLevels(trace)| == len
    ensures InOrder(trace, Cycles(q), reader)
    ensures result.Failure? <==> CountTrue(q.trigger) == 0
    ensures result.Failure? ==> result.error == EmptyBinaryString
    ensures result.Success? ==>
              && result.value < Pow2(CountTrue(q.trigger))
              && ToBits(result.value, CountTrue(q.trigger)) == Capture(q.trigger, ReadLevels(trace))
    ensures IsLoopback(reader) ==> ReadLevels(trace) == q.dataOut
  {
    ZipAligned(q, len);
    var cycles := Cycles(q);
    var bits;
    trace, bits := Exchange(cycles, reader);
    DriveCounts(cycles, reader);
    DriveOrder(cycles, reader);
    result := ParseBinary(bits);
    if IsLoopback(reader) {
      LoopbackReads(cycles, reader);
    }
  }

  /** With MISO wired to MOSI, the bits recorded over aligned sequences are
      the data-out levels at the trigger half-cycles. */
  lemma LoopbackCapture(q: Waveforms, len: nat, reader: seq<Event> -> bool)
    requires q.Aligned(len) && IsLoopback(reader)
    ensures Received(Cycles(q), reader) == Capture(q.trigger, q.dataOut)
  {
    ZipAligned(q, len);
    LoopbackReads(Cycles(q), reader);
  }

  /** With MISO wired to MOSI, a transfer of a word that fits in `w >= 1`
      bits returns the word, in each of the four (CPOL, CPHA) modes. */
  lemma Loopback(data: int, mode: Mode, reader: seq<Event> -> bool)
    requires mode.width >= 1 && 0 <= data < Pow2(mode.width)
    requires IsLoopback(reader)
    ensures Synthesize(data, mode).Success?
    ensures ParseBinary(Received(Cycles(Synthesize(data, mode).value), reader)) == Success(data)
  {
    var q := Synthesize(data, mode).value;
    LoopbackCapture(q, HalfCycles(mode.width), reader);
    FromToBits(data, mode.width);
  }

  /** `spi.transfer` as written: no range check, and the zip cuts an
      oversized data-out line to the length of the others. */
  function TransferAsWritten(data: nat, mode: Mode, reader: seq<Event> -> bool): (r: Result<nat>)
    ensures r.Success? <==> mode.width >= 1
    ensures r.Success? ==> r.value < Pow2(mode.width)
  {
    var q := SynthesizeAsWritten(data, mode);
    ZipCut(q, HalfCycles(mode.width));
    ParseBinary(Received(Cycles(q), reader))
  }

  /** A word with more than `w` binary digits is never echoed back, whatever
      the slave answers. This is a corollary of the bound `r.value < Pow2(w)`
      in the contract of `TransferAsWritten`; what is returned instead is
      `OversizedSendsLeadingDigits`. */
  lemma OversizedWordNotEchoed(data: nat, mode: Mode, reader: seq<Event> -> bool)
    requires data >= Pow2(mode.width)
    ensures TransferAsWritten(data, mode, reader) != Success(data)
  {
  }

  /** With MISO wired to MOSI, the program as written returns the number
      spelled by the `w` leading digits of the word's numeral, whatever the
      word's size. */
  lemma OversizedSendsLeadingDigits(data: nat, mode: Mode, reader: seq<Event> -> bool)
    requires mode.width >= 1 && IsLoopback(reader)
    ensures TransferAsWritten(data, mode, reader)
            == Success(FromBits(PaddedBinary(data, mode.width)[..mode.width]))
  {
    var w := mode.width;
    var q := SynthesizeAsWritten(data, mode);
    var digits := PaddedBinary(data, w);
    ZipCut(q, HalfCycles(w));
    LoopbackReads(Cycles(q), reader);
    LeadingDigitsSent(digits, w, mode.cpha);
    ToFromBits(digits[..w]);
  }

  /** The smallest oversized 8-bit word: with MISO wired to MOSI,
      `transfer(0x100)` returns `0x80`. */
  lemma OversizedWordExample(reader: seq<Event> -> bool)
    requires IsLoopback(reader)
    ensures TransferAsWritten(0x100, Mode(false, false, 8), reader) == Success(0x80)
  {
    OversizedSendsLeadingDigits(0x100, Mode(false, false, 8), reader);
    NinthDigitDropped();
  }

  /** `f"{0x100:08b}"` is `"100000000"`; its eight leading digits spell
      `0x80`. */
  lemma NinthDigitDropped()
    ensures FromBits(PaddedBinary(0x100, 8)[..8]) == 0x80
  {
    assert Pow2(8) == 0x100;
    var leading := ToBits(0x80, 8);
    assert PaddedBinary(0x100, 8) == PaddedBinary(0x80, 8) + [false];
    assert PaddedBinary(0x80, 8) == leading;
    assert PaddedBinary(0x100, 8)[..8] == leading;
    FromToBits(0x80, 8);
  }

  /** On a word that fits, the program as written and the range-checked model
      drive the same half-cycles. */
  lemma AsWrittenAgreesInRange(data: nat, mode: Mode)
    requires data < Pow2(mode.width)
    ensures Synthesize(data, mode).Success?
    ensures Cycles(SynthesizeAsWritten(data, mode)) == Cycles(Synthesize(data, mode).value)
    ensures forall reader :: TransferAsWritten(data, mode, reader)
                             == ParseBinary(Received(Cycles(Synthesize(data, mode).value), reader))
  {
    var asWritten := SynthesizeAsWritten(data, mode);
    var checked := Synthesize(data, mode).value;
    if mode.width == 0 {
      ZeroWidthCut(mode);
    } else {
      assert PaddedBinary(data, mode.width) == ToBits(data, mode.width);
      assert asWritten == checked;
    }
  }

  /** At width 0 the program formats the word 0 as the one digit `"0"`, so
      its data-out line is two half-cycles longer than the others; the zip
      drops exactly those. */
  lemma {:induction false} ZeroWidthCut(mode: Mode)
    requires mode.width == 0
    ensures Cycles(SynthesizeAsWritten(0, mode)) == Cycles(Synthesize(0, mode).value)
  {
    var asWritten := SynthesizeAsWritten(0, mode);
    ZeroWordDigits();
    assert ToBits(0, 0) == [];
    ZeroWordDataOut(mode.cpha);
    ZipIgnoresTail(asWritten.select, asWritten.clock, asWritten.dataOut, asWritten.trigger);
  }

  /** The data-out line of the single digit 0, cut to three half-cycles, is
      the data-out line of no digits. */
  lemma ZeroWordDataOut(cpha: bool)
    ensures DataOut([false], cpha)[..3] == DataOut([], cpha)
  {
    var cut := DataOut([false], cpha)[..3];
    var none := DataOut([], cpha);
    forall i | 0 <= i < 3
      ensures !cut[i] && !none[i]
    {
    }
  }

  /** `f"{0:00b}"` is the single digit `"0"`. */
  lemma ZeroWordDigits()
    ensures PaddedBinary(0, 0) == [false]
  {
    assert Pow2(1) == 2;
    assert ToBits(0, 1) == ToBits(0, 0) + [false];
  }

  /** What the zip cuts off does not matter. */
  lemma {:induction false} ZipIgnoresTail(select: seq<bool>, clock: seq<bool>, dataOut: seq<bool>, trigger: seq<bool>)
    requires |select| == |clock| == |trigger| <= |dataOut|
    ensures Zip(select, clock, dataOut, trigger) == Zip(select, clock, dataOut[..|trigger|], trigger)
  {
    var whole := Zip(select, clock, dataOut, trigger);
    var cut := Zip(select, clock, dataOut[..|trigger|], trigger);
    assert |whole| == |cut|;
    forall i | 0 <= i < |whole|
      ensures whole[i] == cut[i]
    {
    }
  }

  /** The script's loopback runs: `transfer(0b00001111)` and
      `transfer(0b11110000)` with `BITW = 8` return their words in every
      mode. */
  lemma ScriptLoopback(mode: Mode, reader: seq<Event> -> bool)
    requires mode.width == 8 && IsLoopback(reader)
    ensures TransferAsWritten(0x0F, mode, reader) == Success(0x0F)
    ensures TransferAsWritten(0xF0, mode, reader) == Success(0xF0)
  {
    AsWrittenAgreesInRange(0x0F, mode);
    Loopback(0x0F, mode, reader);
    AsWrittenAgreesInRange(0xF0, mode);
    Loopback(0xF0, mode, reader);
  }
}
