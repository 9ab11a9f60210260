/** The sequence synthesizer of `spi.transfer`.

    For a bit width `w` the transfer lasts `2w + 3` half-cycles. The program
    spells each line's levels as a string of `'0'`/`'1'` built from fixed
    pieces; here each is the same concatenation over `seq<bool>`, and every
    builder states the closed form of its result: which level sits at which
    half-cycle index.
 */
module Synthesis {
  import opened Results
  import opened Binary
  import opened Levels

  /** The class attributes `CPOL`, `CPHA` and `BITW`. */
  datatype Mode = Mode(cpol: bool, cpha: bool, width: nat)

  /** The four index-aligned level sequences of one transfer. */
  datatype Waveforms = Waveforms(select: seq<bool>, clock: seq<bool>, dataOut: seq<bool>, trigger: seq<bool>)
  {
    predicate Aligned(len: nat) {
      |select| == len && |clock| == len && |dataOut| == len && |trigger| == len
    }
  }

  const Lo := false
  const Hi := true

  /** Number of half-cycles of a `w`-bit transfer. */
  function HalfCycles(w: nat): nat {
    2 * w + 3
  }

  /** `n * "ab"`: `n` repetitions of the two-level pattern `a`, `b`. */
  function Periods(a: bool, b: bool, n: nat): (r: seq<bool>)
    ensures |r| == 2 * n
    ensures forall i :: 0 <= i < 2 * n ==> r[i] == (if i % 2 == 0 then a else b)
  {
    if n == 0 then [] else [a, b] + Periods(a, b, n - 1)
  }

  lemma {:induction false} PeriodsCount(a: bool, b: bool, n: nat)
    requires a != b
    ensures CountTrue(Periods(a, b, n)) == n
  {
    if n > 0 {
      CountTrueConcat([a, b], Periods(a, b, n - 1));
      PeriodsCount(a, b, n - 1);
    }
  }

  /** `"".join(c + c for c in digits)`: every digit held for two half-cycles. */
  function Doubled(bits: seq<bool>): (r: seq<bool>)
    ensures |r| == 2 * |bits|
    ensures forall k :: 0 <= k < |bits| ==> r[2 * k] == bits[k] && r[2 * k + 1] == bits[k]
  {
    if |bits| == 0 then [] else [bits[0], bits[0]] + Doubled(bits[1..])
  }

  /** Chip select, `"1" + w * "00" + "01"`: high (inactive) at the first and
      the last half-cycle only, so low from index 1 through index `2w + 1`. */
  function ChipSelect(w: nat): (r: seq<bool>)
    ensures |r| == HalfCycles(w)
    ensures forall i :: 0 <= i < |r| ==> (r[i] <==> i == 0 || i == 2 * w + 2)
  {
    [Hi] + Periods(Lo, Lo, w) + [Lo, Hi]
  }

  /** Half-cycles in which a CPOL = 0 clock is high: the even indices of
      `1 .. 2w`, the second half of each of the `w` periods. */
  predicate ClockPulse(w: nat, i: int) {
    1 <= i <= 2 * w && i % 2 == 0
  }

  /** The CPOL = 0 clock, `"0" + w * "01" + "00"`. */
  function ClockIdleLow(w: nat): (r: seq<bool>)
    ensures |r| == HalfCycles(w)
    ensures forall i :: 0 <= i < |r| ==> (r[i] <==> ClockPulse(w, i))
  {
    [Lo] + Periods(Lo, Hi, w) + [Lo, Lo]
  }

  /** The CPOL = 1 clock, `"1" + w * "10" + "11"`. */
  function ClockIdleHigh(w: nat): (r: seq<bool>)
    ensures |r| == HalfCycles(w)
    ensures forall i :: 0 <= i < |r| ==> (r[i] <==> !ClockPulse(w, i))
  {
    [Hi] + Periods(Hi, Lo, w) + [Hi, Hi]
  }

  /** `[CLK_S0, CLK_S1][CPOL]`: the clock rests at the CPOL level and leaves it
      exactly in the pulse half-cycles, so the CPOL = 1 clock is the pointwise
      complement of the CPOL = 0 clock. */
  function Clock(cpol: bool, w: nat): (r: seq<bool>)
    ensures |r| == HalfCycles(w)
    ensures forall i :: 0 <= i < |r| ==> r[i] == (cpol != ClockPulse(w, i))
  {
    if cpol then ClockIdleHigh(w) else ClockIdleLow(w)
  }

  /** A CPOL = 0 clock is high in exactly `w` half-cycles (one per period),
      a CPOL = 1 clock is low in exactly `w`. */
  lemma ClockPeriods(w: nat)
    ensures CountTrue(Clock(false, w)) == w
    ensures CountTrue(Clock(true, w)) == w + 3
  {
    PeriodsCount(Lo, Hi, w);
    PeriodsCount(Hi, Lo, w);
    CountTrueConcat([Lo], Periods(Lo, Hi, w));
    CountTrueConcat([Lo] + Periods(Lo, Hi, w), [Lo, Lo]);
    CountTrueConcat([Hi], Periods(Hi, Lo, w));
    CountTrueConcat([Hi] + Periods(Hi, Lo, w), [Hi, Hi]);
  }

  /** Idle half-cycles before the first data bit: one for CPHA = 0, two for
      CPHA = 1. */
  function Lead(cpha: bool): nat {
    if cpha then 2 else 1
  }

  /** `[DTO_S0, DTO_S1][CPHA]` for the digit sequence `bits`: bit `k` occupies
      indices `Lead + 2k` and `Lead + 2k + 1`, every other index is low. */
  function DataOut(bits: seq<bool>, cpha: bool): (r: seq<bool>)
    ensures |r| == 2 * |bits| + 3
    ensures forall k :: 0 <= k < |bits| ==>
              r[Lead(cpha) + 2 * k] == bits[k] && r[Lead(cpha) + 2 * k + 1] == bits[k]
    ensures forall i :: 0 <= i < |r| && (i < Lead(cpha) || Lead(cpha) + 2 * |bits| <= i) ==> !r[i]
  {
    if cpha then [Lo, Lo] + Doubled(bits) + [Lo] else [Lo] + Doubled(bits) + [Lo, Lo]
  }

  /** Half-cycles in which a record trigger is set: the second half of each bit
      slot of `DataOut`. */
  predicate SampleAt(cpha: bool, w: nat, i: int) {
    Lead(cpha) < i < Lead(cpha) + 2 * w && (i - Lead(cpha)) % 2 == 1
  }

  /** `[TRG_S0, TRG_S1][CPHA]`: `w * "01"` padded like the data-out line. */
  function Trigger(w: nat, cpha: bool): (r: seq<bool>)
    ensures |r| == HalfCycles(w)
    ensures forall i :: 0 <= i < |r| ==> (r[i] <==> SampleAt(cpha, w, i))
    ensures CountTrue(r) == w
  {
    PeriodsCount(Lo, Hi, w);
    if cpha then
      CountTrueConcat([Lo, Lo], Periods(Lo, Hi, w));
      CountTrueConcat([Lo, Lo] + Periods(Lo, Hi, w), [Lo]);
      [Lo, Lo] + Periods(Lo, Hi, w) + [Lo]
    else
      CountTrueConcat([Lo], Periods(Lo, Hi, w));
      CountTrueConcat([Lo] + Periods(Lo, Hi, w), [Lo, Lo]);
      [Lo] + Periods(Lo, Hi, w) + [Lo, Lo]
  }

  /** Sampling the data-out line at the trigger instants gives back its bits:
      the trigger of bit slot `k` falls on the slot's second half-cycle. */
  lemma {:induction false} CaptureRecoversBits(bits: seq<bool>, cpha: bool)
    ensures Capture(Trigger(|bits|, cpha), DataOut(bits, cpha)) == bits
  {
    var w := |bits|;
    CaptureSlots(bits);
    if cpha {
      CaptureConcat([Lo, Lo], [Lo, Lo], Periods(Lo, Hi, w), Doubled(bits));
      CaptureConcat([Lo, Lo] + Periods(Lo, Hi, w), [Lo, Lo] + Doubled(bits), [Lo], [Lo]);
    } else {
      CaptureConcat([Lo], [Lo], Periods(Lo, Hi, w), Doubled(bits));
      CaptureConcat([Lo] + Periods(Lo, Hi, w), [Lo] + Doubled(bits), [Lo, Lo], [Lo, Lo]);
    }
  }

  lemma {:induction false} CaptureSlots(bits: seq<bool>)
    ensures Capture(Periods(Lo, Hi, |bits|), Doubled(bits)) == bits
  {
    if |bits| > 0 {
      var w := |bits|;
      CaptureConcat([Lo, Hi], [bits[0], bits[0]], Periods(Lo, Hi, w - 1), Doubled(bits[1..]));
      CaptureSlots(bits[1..]);
      assert bits == [bits[0]] + bits[1..];
    }
  }

  /** The synthesizer: rejects a word that does not fit in `w` bits, and
      otherwise yields four aligned sequences whose data-out line, read at the
      trigger instants, spells `data` MSB first. */
  function Synthesize(data: int, mode: Mode): (r: Result<Waveforms>)
    ensures r.Success? <==> 0 <= data < Pow2(mode.width)
    ensures r.Failure? ==> r.error == ValueOutOfRange
    ensures r.Success? ==> r.value.Aligned(HalfCycles(mode.width))
    ensures r.Success? ==> CountTrue(r.value.trigger) == mode.width
    ensures r.Success? ==> Capture(r.value.trigger, r.value.dataOut) == ToBits(data, mode.width)
    ensures r.Success? ==> FromBits(Capture(r.value.trigger, r.value.dataOut)) == data
  {
    if 0 <= data < Pow2(mode.width) then
      var bits := ToBits(data, mode.width);
      CaptureRecoversBits(bits, mode.cpha);
      FromToBits(data, mode.width);
      Success(Waveforms(ChipSelect(mode.width), Clock(mode.cpol, mode.width),
                        DataOut(bits, mode.cpha), Trigger(mode.width, mode.cpha)))
    else
      Failure(ValueOutOfRange)
  }

  /** At every record trigger: chip select is low, the clock has just made the
      edge that the (CPOL, CPHA) convention samples on (rising for modes 0 and
      3, falling for modes 1 and 2), and the data-out line has held the bit of
      that slot since the previous half-cycle. */
  lemma SamplingInstants(data: int, mode: Mode)
    requires 0 <= data < Pow2(mode.width)
    ensures var q := Synthesize(data, mode).value;
            var bits := ToBits(data, mode.width);
            forall i :: 0 <= i < HalfCycles(mode.width) && q.trigger[i] ==>
              && 0 < i
              && !q.select[i]
              && q.clock[i - 1] != q.clock[i]
              && q.clock[i] == (mode.cpol == mode.cpha)
              && q.dataOut[i - 1] == q.dataOut[i] == bits[(i - Lead(mode.cpha)) / 2]
  {
    var w := mode.width;
    var bits := ToBits(data, w);
    var q := Synthesize(data, mode).value;
    assert q == Waveforms(ChipSelect(w), Clock(mode.cpol, w), DataOut(bits, mode.cpha), Trigger(w, mode.cpha));
    forall i | 0 <= i < HalfCycles(w) && q.trigger[i] {
      SampleInstant(mode, bits, i);
    }
  }

  lemma SampleInstant(mode: Mode, bits: seq<bool>, i: int)
    requires |bits| == mode.width
    requires 0 <= i < HalfCycles(mode.width) && Trigger(mode.width, mode.cpha)[i]
    ensures 0 < i && !ChipSelect(mode.width)[i]
    ensures var clk := Clock(mode.cpol, mode.width);
            clk[i - 1] != clk[i] && clk[i] == (mode.cpol == mode.cpha)
    ensures var dto := DataOut(bits, mode.cpha);
            dto[i - 1] == dto[i] == bits[(i - Lead(mode.cpha)) / 2]
  {
    var w := mode.width;
    var lead := Lead(mode.cpha);
    var dto := DataOut(bits, mode.cpha);
    assert SampleAt(mode.cpha, w, i);
    var k := (i - lead) / 2;
    SlotOf(mode.cpha, w, i);
    DataOutSlot(bits, mode.cpha, k);
    assert i - 1 == lead + 2 * k && i == lead + 2 * k + 1;
    assert dto[i - 1] == bits[k] && dto[i] == bits[k];
    TriggerEdge(mode.cpha, w, i);
  }

  lemma DataOutSlot(bits: seq<bool>, cpha: bool, k: int)
    requires 0 <= k < |bits|
    ensures DataOut(bits, cpha)[Lead(cpha) + 2 * k] == bits[k]
    ensures DataOut(bits, cpha)[Lead(cpha) + 2 * k + 1] == bits[k]
  {
  }

  /** A trigger half-cycle is the second half of bit slot `k`. */
  lemma SlotOf(cpha: bool, w: nat, i: int)
    requires SampleAt(cpha, w, i)
    ensures var k := (i - Lead(cpha)) / 2;
            i == Lead(cpha) + 2 * k + 1 && 0 <= k < w
  {
  }

  /** A trigger half-cycle is a clock-edge half-cycle, and the pulse level
      is reached there exactly when CPHA = 0. */
  lemma TriggerEdge(cpha: bool, w: nat, i: int)
    requires SampleAt(cpha, w, i)
    ensures ClockPulse(w, i) != ClockPulse(w, i - 1)
    ensures ClockPulse(w, i) == !cpha
  {
  }

  /** Outside the chip-select window the clock rests at its CPOL level, the
      data-out line is low and nothing is recorded. */
  lemma IdleOutsideSelect(data: int, mode: Mode)
    requires 0 <= data < Pow2(mode.width)
    ensures var q := Synthesize(data, mode).value;
            forall i :: 0 <= i < HalfCycles(mode.width) && q.select[i] ==>
              && q.clock[i] == mode.cpol
              && !q.dataOut[i]
              && !q.trigger[i]
  {
    var w := mode.width;
    var q := Synthesize(data, mode).value;
    assert q == Waveforms(ChipSelect(w), Clock(mode.cpol, w), DataOut(ToBits(data, w), mode.cpha), Trigger(w, mode.cpha));
  }

  /** `f"{data:0{w}b}"` for any natural `data`: the binary numeral of `data`,
      zero-padded to `w` digits (at least one digit). A word that fits in
      `w >= 1` bits takes exactly `w` digits; one that does not fit takes
      more, and then no zero is added in front: the numeral starts with 1. */
  function PaddedBinary(data: nat, w: nat): (r: seq<bool>)
    ensures |r| >= w && |r| >= 1
    ensures w >= 1 && data < Pow2(w) ==> |r| == w
    ensures data >= Pow2(w) ==> |r| > w
    ensures |r| > w && |r| > 1 ==> r[0]
    ensures FromBits(r) == data
    decreases data
  {
    var width := if w == 0 then 1 else w;
    if data < Pow2(width) then
      FromToBits(data, width);
      ToBits(data, width)
    else
      var prefix := PaddedBinary(data / 2, w);
      assert Pow2(width) == 2 * Pow2(width - 1);
      if data / 2 < Pow2(width) then
        TopBit(data / 2, width);
        prefix + [data % 2 == 1]
      else
        prefix + [data % 2 == 1]
  }

  /** A data-out line spelled from more than `w` digits and cut to the
      length of the trigger line is sampled at the `w` leading digits. */
  lemma LeadingDigitsSent(digits: seq<bool>, w: nat, cpha: bool)
    requires |digits| >= w
    ensures Capture(Trigger(w, cpha), DataOut(digits, cpha)[..HalfCycles(w)]) == digits[..w]
  {
    var t := Trigger(w, cpha);
    var sent := DataOut(digits, cpha)[..HalfCycles(w)];
    var leading := digits[..w];
    forall i | 0 <= i < |t| && t[i]
      ensures sent[i] == DataOut(leading, cpha)[i]
    {
      SlotOf(cpha, w, i);
      var k := (i - Lead(cpha)) / 2;
      DataOutSlot(digits, cpha, k);
      DataOutSlot(leading, cpha, k);
    }
    CaptureAgrees(t, sent, DataOut(leading, cpha));
    CaptureRecoversBits(leading, cpha);
  }

  /** The sequences exactly as `spi.transfer` spells them, with no range
      check: an oversized word makes the data-out line longer than the other
      three. */
  function SynthesizeAsWritten(data: nat, mode: Mode): (r: Waveforms)
    ensures |r.select| == |r.clock| == |r.trigger| == HalfCycles(mode.width)
    ensures |r.dataOut| >= HalfCycles(mode.width)
    ensures data >= Pow2(mode.width) ==> |r.dataOut| > HalfCycles(mode.width)
  {
    Waveforms(ChipSelect(mode.width), Clock(mode.cpol, mode.width),
              DataOut(PaddedBinary(data, mode.width), mode.cpha), Trigger(mode.width, mode.cpha))
  }
}
