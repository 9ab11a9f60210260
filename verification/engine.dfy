/** The transfer loop of `spi.transfer`, over an abstract GPIO port.

    The port is an event trace: every `pinwrite` and `pinread` appends one
    event. What the MISO line reads is decided by a `reader`, a function of
    everything written so far, which stands for the slave device (or for a
    loopback wire).
 */
module Engine {
  import opened Levels

  /** The four SPI lines (pins `PIN_CS`, `PIN_SCK`, `PIN_MOSI`, `PIN_MISO`). */
  datatype Line = ChipSelect | Clock | Mosi | Miso

  /** One port operation and the level written or read (`true` = HIGH). */
  datatype Event = Write(line: Line, level: bool) | Read(line: Line, level: bool)

  /** One element of `zip(SEL_SQ, CLK_SQ, DTO_SQ, TRG_SQ)`. */
  datatype HalfCycle = HalfCycle(select: bool, clock: bool, dataOut: bool, trigger: bool)

  function Min(a: int, b: int): int {
    if a <= b then a else b
  }

  /** Python's `zip` over the four level sequences: as long as the shortest,
      the longer ones silently cut. */
  function Zip(select: seq<bool>, clock: seq<bool>, dataOut: seq<bool>, trigger: seq<bool>): (r: seq<HalfCycle>)
    ensures |r| == Min(Min(|select|, |clock|), Min(|dataOut|, |trigger|))
    ensures forall i {:trigger r[i]} :: 0 <= i < |r| ==> r[i] == HalfCycle(select[i], clock[i], dataOut[i], trigger[i])
  {
    if |select| == 0 || |clock| == 0 || |dataOut| == 0 || |trigger| == 0 then []
    else [HalfCycle(select[0], clock[0], dataOut[0], trigger[0])]
         + Zip(select[1..], clock[1..], dataOut[1..], trigger[1..])
  }

  /** The trigger column of a zipped sequence. */
  function Triggers(cycles: seq<HalfCycle>): (r: seq<bool>)
    ensures |r| == |cycles|
    ensures forall i {:trigger r[i]} :: 0 <= i < |r| ==> r[i] == cycles[i].trigger
  {
    if |cycles| == 0 then [] else [cycles[0].trigger] + Triggers(cycles[1..])
  }

  /** The data-out column of a zipped sequence. */
  function DataOuts(cycles: seq<HalfCycle>): (r: seq<bool>)
    ensures |r| == |cycles|
    ensures forall i {:trigger r[i]} :: 0 <= i < |r| ==> r[i] == cycles[i].dataOut
  {
    if |cycles| == 0 then [] else [cycles[0].dataOut] + DataOuts(cycles[1..])
  }

  /** The three writes of one half-cycle, in the program's order: MOSI, then
      SCK, then CS. */
  function HalfCycleWrites(c: HalfCycle): seq<Event> {
    [Write(Mosi, c.dataOut), Write(Clock, c.clock), Write(ChipSelect, c.select)]
  }

  /** Reference definition of the trace the loop leaves on the port: per
      half-cycle its three writes followed by one MISO read, whose level the
      reader decides from the trace up to and including those writes. */
  function Drive(cycles: seq<HalfCycle>, reader: seq<Event> -> bool): seq<Event>
  {
    if |cycles| == 0 then []
    else
      var written := Drive(cycles[..|cycles| - 1], reader) + HalfCycleWrites(cycles[|cycles| - 1]);
      written + [Read(Miso, reader(written))]
  }

  /** The levels returned by the MISO reads of a trace, in order (`MISO`). */
  function ReadLevels(trace: seq<Event>): (r: seq<bool>)
    ensures |r| <= |trace|
  {
    if |trace| == 0 then []
    else (if trace[0].Read? then [trace[0].level] else []) + ReadLevels(trace[1..])
  }

  function WriteCount(trace: seq<Event>): (r: nat)
    ensures r <= |trace|
  {
    if |trace| == 0 then 0 else (if trace[0].Write? then 1 else 0) + WriteCount(trace[1..])
  }

  function ReadCount(trace: seq<Event>): (r: nat)
    ensures r == |trace| - WriteCount(trace)
  {
    if |trace| == 0 then 0 else (if trace[0].Read? then 1 else 0) + ReadCount(trace[1..])
  }

  lemma {:induction false} ReadLevelsConcat(a: seq<Event>, b: seq<Event>)
    ensures ReadLevels(a + b) == ReadLevels(a) + ReadLevels(b)
  {
    if |a| == 0 {
      assert a + b == b;
    } else {
      var head := if a[0].Read? then [a[0].level] else [];
      assert (a + b)[0] == a[0];
      assert (a + b)[1..] == a[1..] + b;
      assert ReadLevels(a + b) == head + ReadLevels(a[1..] + b);
      ReadLevelsConcat(a[1..], b);
      assert ReadLevels(a) == head + ReadLevels(a[1..]);
      assert head + (ReadLevels(a[1..]) + ReadLevels(b)) == (head + ReadLevels(a[1..])) + ReadLevels(b);
    }
  }

  lemma {:induction false} WriteCountConcat(a: seq<Event>, b: seq<Event>)
    ensures WriteCount(a + b) == WriteCount(a) + WriteCount(b)
  {
    if |a| == 0 {
      assert a + b == b;
    } else {
      assert (a + b)[1..] == a[1..] + b;
      WriteCountConcat(a[1..], b);
    }
  }

  /** Appending one half-cycle adds three writes, one read, and the read's
      level. */
  lemma HalfCycleStep(prefix: seq<Event>, c: HalfCycle, level: bool)
    ensures var t := prefix + HalfCycleWrites(c) + [Read(Miso, level)];
            && ReadLevels(t) == ReadLevels(prefix) + [level]
            && WriteCount(t) == WriteCount(prefix) + 3
  {
    var ws := HalfCycleWrites(c);
    assert ws[1..][1..][1..] == [];
    assert ReadLevels(ws[1..][1..]) == [] && WriteCount(ws[1..][1..]) == 1;
    assert ReadLevels(ws[1..]) == [] && WriteCount(ws[1..]) == 2;
    assert ReadLevels(ws) == [] && WriteCount(ws) == 3;
    assert ReadLevels([Read(Miso, level)]) == [level];
    assert WriteCount([Read(Miso, level)]) == 0;
    ReadLevelsConcat(prefix, ws);
    ReadLevelsConcat(prefix + ws, [Read(Miso, level)]);
    WriteCountConcat(prefix, ws);
    WriteCountConcat(prefix + ws, [Read(Miso, level)]);
  }

  /** The port traffic of `n` half-cycles: `4n` events, `3n` writes, `n`
      reads. */
  lemma {:induction false} DriveCounts(cycles: seq<HalfCycle>, reader: seq<Event> -> bool)
    ensures |Drive(cycles, reader)| == 4 * |cycles|
    ensures WriteCount(Drive(cycles, reader)) == 3 * |cycles|
    ensures ReadCount(Drive(cycles, reader)) == |cycles|
    ensures |ReadLevels(Drive(cycles, reader))| == |cycles|
  {
    if |cycles| > 0 {
      var n := |cycles|;
      var prefix := Drive(cycles[..n - 1], reader);
      DriveCounts(cycles[..n - 1], reader);
      HalfCycleStep(prefix, cycles[n - 1], reader(prefix + HalfCycleWrites(cycles[n - 1])));
    }
  }

  /** The trace of the first `i` half-cycles is a prefix of the whole trace. */
  lemma {:induction false} DrivePrefix(cycles: seq<HalfCycle>, reader: seq<Event> -> bool, i: nat)
    requires i <= |cycles|
    ensures |Drive(cycles, reader)| == 4 * |cycles|
    ensures Drive(cycles, reader)[..4 * i] == Drive(cycles[..i], reader)
  {
    DriveCounts(cycles, reader);
    var n := |cycles|;
    if i == n {
      assert cycles[..i] == cycles;
    } else {
      var front := Drive(cycles[..n - 1], reader);
      var written := front + HalfCycleWrites(cycles[n - 1]);
      assert Drive(cycles, reader) == front + (HalfCycleWrites(cycles[n - 1]) + [Read(Miso, reader(written))]);
      DriveCounts(cycles[..n - 1], reader);
      assert Drive(cycles, reader)[..4 * i] == front[..4 * i];
      DrivePrefix(cycles[..n - 1], reader, i);
      assert cycles[..n - 1][..i] == cycles[..i];
    }
  }

  /** Events `4i .. 4i + 3` of a trace: the port traffic of half-cycle `i`. */
  function Block(trace: seq<Event>, i: nat): seq<Event>
    requires 4 * i + 4 <= |trace|
  {
    trace[4 * i..4 * i + 4]
  }

  /** Each half-cycle of the trace is its three writes in the order MOSI, SCK,
      CS, then one MISO read answered from the trace so far. */
  ghost predicate InOrder(trace: seq<Event>, cycles: seq<HalfCycle>, reader: seq<Event> -> bool) {
    && |trace| == 4 * |cycles|
    && forall i {:trigger Block(trace, i)} :: 0 <= i < |cycles| ==>
         Block(trace, i) == HalfCycleWrites(cycles[i]) + [Read(Miso, reader(trace[..4 * i + 3]))]
  }

  lemma DriveOrder(cycles: seq<HalfCycle>, reader: seq<Event> -> bool)
    ensures InOrder(Drive(cycles, reader), cycles, reader)
  {
    DriveCounts(cycles, reader);
    forall i | 0 <= i < |cycles| {
      DriveBlock(cycles, reader, i);
    }
  }

  lemma DriveBlock(cycles: seq<HalfCycle>, reader: seq<Event> -> bool, i: nat)
    requires i < |cycles|
    ensures |Drive(cycles, reader)| == 4 * |cycles|
    ensures var trace := Drive(cycles, reader);
            Block(trace, i) == HalfCycleWrites(cycles[i]) + [Read(Miso, reader(trace[..4 * i + 3]))]
  {
    var trace := Drive(cycles, reader);
    DrivePrefix(cycles, reader, i + 1);
    DriveCounts(cycles[..i], reader);
    var upTo := cycles[..i + 1];
    assert upTo[..i] == cycles[..i];
    var written := Drive(cycles[..i], reader) + HalfCycleWrites(cycles[i]);
    assert Drive(upTo, reader) == written + [Read(Miso, reader(written))];
    assert trace[..4 * i + 4] == written + [Read(Miso, reader(written))];
    assert trace[..4 * i + 3] == written;
    assert Block(trace, i) == (written + [Read(Miso, reader(written))])[4 * i..];
  }

  /** The level of the last MOSI write (low before any). */
  function LastMosi(trace: seq<Event>): bool {
    if |trace| == 0 then false
    else if trace[|trace| - 1].Write? && trace[|trace| - 1].line == Mosi then trace[|trace| - 1].level
    else LastMosi(trace[..|trace| - 1])
  }

  /** A reader for MISO wired to MOSI. */
  ghost predicate IsLoopback(reader: seq<Event> -> bool) {
    forall trace :: reader(trace) == LastMosi(trace)
  }

  lemma {:induction false} DataOutsLast(cycles: seq<HalfCycle>)
    requires |cycles| > 0
    ensures DataOuts(cycles) == DataOuts(cycles[..|cycles| - 1]) + [cycles[|cycles| - 1].dataOut]
  {
    var whole := DataOuts(cycles);
    var split := DataOuts(cycles[..|cycles| - 1]) + [cycles[|cycles| - 1].dataOut];
    forall i | 0 <= i < |whole|
      ensures whole[i] == split[i]
    {
    }
  }

  /** After the writes of a half-cycle the MOSI line holds its data-out level. */
  lemma LastMosiAfterWrites(prefix: seq<Event>, c: HalfCycle)
    ensures LastMosi(prefix + HalfCycleWrites(c)) == c.dataOut
  {
    var written := prefix + HalfCycleWrites(c);
    var w1 := written[..|written| - 1];
    var w2 := w1[..|w1| - 1];
    assert w1 == prefix + [Write(Mosi, c.dataOut), Write(Clock, c.clock)];
    assert w2 == prefix + [Write(Mosi, c.dataOut)];
    assert LastMosi(w2) == c.dataOut;
  }

  /** With MISO wired to MOSI, every half-cycle reads the level it has just
      written on MOSI. */
  lemma {:induction false} LoopbackReads(cycles: seq<HalfCycle>, reader: seq<Event> -> bool)
    requires IsLoopback(reader)
    ensures ReadLevels(Drive(cycles, reader)) == DataOuts(cycles)
  {
    if |cycles| > 0 {
      var n := |cycles|;
      var c := cycles[n - 1];
      var prefix := Drive(cycles[..n - 1], reader);
      var written := prefix + HalfCycleWrites(c);
      LastMosiAfterWrites(prefix, c);
      assert reader(written) == c.dataOut;
      HalfCycleStep(prefix, c, c.dataOut);
      LoopbackReads(cycles[..n - 1], reader);
      DataOutsLast(cycles);
    }
  }

  /** One more half-cycle extends the trace by that half-cycle's block and
      the trigger column by its trigger. */
  lemma DriveStep(cycles: seq<HalfCycle>, reader: seq<Event> -> bool, i: nat)
    requires i < |cycles|
    ensures var written := Drive(cycles[..i], reader) + HalfCycleWrites(cycles[i]);
            Drive(cycles[..i + 1], reader) == written + [Read(Miso, reader(written))]
    ensures Triggers(cycles[..i + 1]) == Triggers(cycles[..i]) + [cycles[i].trigger]
  {
    assert cycles[..i + 1][..i] == cycles[..i];
    assert cycles[..i + 1][i] == cycles[i];
  }

  /** What one iteration of the transfer loop does to the trace and to the
      recorded bits. */
  lemma ExchangeStep(cycles: seq<HalfCycle>, reader: seq<Event> -> bool, i: nat, before: seq<Event>, level: bool)
    requires i < |cycles|
    requires before == Drive(cycles[..i], reader) && |ReadLevels(before)| == i
    requires level == reader(before + HalfCycleWrites(cycles[i]))
    ensures var after := before + HalfCycleWrites(cycles[i]) + [Read(Miso, level)];
            && after == Drive(cycles[..i + 1], reader)
            && ReadLevels(after) == ReadLevels(before) + [level]
            && Capture(Triggers(cycles[..i + 1]), ReadLevels(after))
               == Capture(Triggers(cycles[..i]), ReadLevels(before)) + (if cycles[i].trigger then [level] else [])
  {
    DriveStep(cycles, reader, i);
    HalfCycleStep(before, cycles[i], level);
    CaptureConcat(Triggers(cycles[..i]), ReadLevels(before), [cycles[i].trigger], [level]);
  }

  /** The loop of `spi.transfer`: for each half-cycle write MOSI, SCK and CS,
      read MISO once, and append the level read to `bits` when the trigger is
      set. */
  method Exchange(cycles: seq<HalfCycle>, reader: seq<Event> -> bool) returns (trace: seq<Event>, bits: seq<bool>)
    ensures trace == Drive(cycles, reader)
    ensures |trace| == 4 * |cycles|
    ensures WriteCount(trace) == 3 * |cycles| && ReadCount(trace) == |cycles|
    ensures |ReadLevels(trace)| == |cycles|
    ensures |bits| == CountTrue(Triggers(cycles))
    ensures bits == Capture(Triggers(cycles), ReadLevels(trace))
  {
    trace := [];
    bits := [];
    var i := 0;
    while i < |cycles|
      invariant 0 <= i <= |cycles|
      invariant trace == Drive(cycles[..i], reader)
      invariant |ReadLevels(trace)| == i
      invariant bits == Capture(Triggers(cycles[..i]), ReadLevels(trace))
    {
      var c := cycles[i];
      ghost var before := trace;
      trace := trace + [Write(Mosi, c.dataOut)];
      trace := trace + [Write(Clock, c.clock)];
      trace := trace + [Write(ChipSelect, c.select)];
      assert trace == before + HalfCycleWrites(c);
      var level := reader(trace);
      trace := trace + [Read(Miso, level)];
      if c.trigger {
        bits := bits + [level];
      }
      ExchangeStep(cycles, reader, i, before, level);
      i := i + 1;
    }
    assert cycles[..i] == cycles;
    DriveCounts(cycles, reader);
  }
}
