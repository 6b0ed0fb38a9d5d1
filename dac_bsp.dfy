// The bit-banged interface to the two 12-bit serial DACs. Every pin write is
// recorded in a trace; a model of the receiving DAC (a shift register clocked
// on rising edges, copied to the output when the latch is driven active)
// reads the trace back.

module DacBsp {

  /** DacSelect_t. */
  datatype DacSelect = ForwardBackward | LeftRight

  /** The port D pins the two DACs are wired to. */
  datatype Pin = D1 | D2 | D4 | D5 | D6 | D7

  /** The three lines of one DAC. */
  datatype Line = Clock | Data | Latch

  /** dac_phy: the clock, data and latch pin of each DAC. */
  function PinOf(dac: DacSelect, line: Line): Pin
  {
    match (dac, line)
    case (ForwardBackward, Clock) => D6
    case (ForwardBackward, Data) => D5
    case (ForwardBackward, Latch) => D4
    case (LeftRight, Clock) => D1
    case (LeftRight, Data) => D2
    case (LeftRight, Latch) => D7
  }

  /** One output_bit call: a pin driven high or low. */
  datatype PinWrite = PinWrite(pin: Pin, high: bool)

  /** DAC_BSP_NUM_BITS. */
  const NumBits: nat := 12

  /** DAC_LATCH_ACTIVE_STATE is GPIO_LOW. */
  const LatchActiveLevel: bool := false

  /** The 12 value bits of a DAC word. */
  const ValueMask: bv16 := 0xFFF

  /** The mask `1 << (DAC_BSP_NUM_BITS - 1 - i)` of loop pass `i`. */
  const BitMasks: seq<bv16> := [0x800, 0x400, 0x200, 0x100, 0x80, 0x40, 0x20, 0x10, 0x8, 0x4, 0x2, 0x1]

  /** The table holds exactly the shifted masks the loop computes. */
  lemma BitMasksAreShifts()
    ensures |BitMasks| == NumBits
    ensures forall i :: 0 <= i < NumBits ==> BitMasks[i] == 1 << (NumBits - 1 - i)
  {
  }

  /** The level written to the data line in loop pass `i`: bit 11 - i of `val`. */
  function DataBit(val: bv16, i: nat): bool
    requires i < NumBits
  {
    val & BitMasks[i] != 0
  }

  /** The value bits, most significant first. */
  function MsbFirst(val: bv16): (bits: seq<bool>)
    ensures |bits| == NumBits
  {
    seq(NumBits, i requires 0 <= i < NumBits => DataBit(val, i))
  }

  function DataWrite(dac: DacSelect, high: bool): PinWrite
  {
    PinWrite(PinOf(dac, Data), high)
  }

  function ClockWrite(dac: DacSelect, high: bool): PinWrite
  {
    PinWrite(PinOf(dac, Clock), high)
  }

  /** LatchStateSet: the active latch level is low. */
  function LatchWrite(dac: DacSelect, active: bool): PinWrite
  {
    PinWrite(PinOf(dac, Latch), if active then LatchActiveLevel else !LatchActiveLevel)
  }

  /** The writes of one loop pass: data, clock high, the latch on the last bit, clock low. */
  function PassTrace(dac: DacSelect, bit: bool, last: bool): seq<PinWrite>
  {
    if last then [DataWrite(dac, bit), ClockWrite(dac, true), LatchWrite(dac, true), ClockWrite(dac, false)]
    else [DataWrite(dac, bit), ClockWrite(dac, true), ClockWrite(dac, false)]
  }

  /** The writes of loop pass `i`. */
  function BitTrace(dac: DacSelect, val: bv16, i: nat): seq<PinWrite>
    requires i < NumBits
  {
    PassTrace(dac, DataBit(val, i), i == NumBits - 1)
  }

  /** The writes of the first `n` loop passes. */
  function BitsTrace(dac: DacSelect, val: bv16, n: nat): seq<PinWrite>
    requires n <= NumBits
  {
    if n == 0 then [] else BitsTrace(dac, val, n - 1) + BitTrace(dac, val, n - 1)
  }

  lemma BitsTraceStep(dac: DacSelect, val: bv16, i: nat)
    requires i < NumBits
    ensures BitsTrace(dac, val, i + 1) == BitsTrace(dac, val, i) + BitTrace(dac, val, i)
  {
  }

  /** The writes of one dacBspSet call. */
  function SetTrace(dac: DacSelect, val: bv16): seq<PinWrite>
  {
    [ClockWrite(dac, false)] + BitsTrace(dac, val, NumBits) + [LatchWrite(dac, false)] + [ClockWrite(dac, true)]
  }

  /** The writes of dacBspInit. */
  function InitTrace(): seq<PinWrite>
  {
    [LatchWrite(ForwardBackward, false), LatchWrite(LeftRight, false),
     ClockWrite(ForwardBackward, true), ClockWrite(LeftRight, true),
     DataWrite(ForwardBackward, false), DataWrite(LeftRight, false)]
  }

  /** The port: every pin write so far, in order. */
  class DacPort {
    var trace: seq<PinWrite>

    constructor ()
      ensures trace == []
    {
      trace := [];
    }

    /** DataStateSet. */
    method DataStateSet(dac: DacSelect, high: bool)
      modifies this
      ensures trace == old(trace) + [DataWrite(dac, high)]
    {
      trace := trace + [PinWrite(PinOf(dac, Data), high)];
    }

    /** ClockStateSet. */
    method ClockStateSet(dac: DacSelect, high: bool)
      modifies this
      ensures trace == old(trace) + [ClockWrite(dac, high)]
    {
      trace := trace + [PinWrite(PinOf(dac, Clock), high)];
    }

    /** LatchStateSet. */
    method LatchStateSet(dac: DacSelect, active: bool)
      modifies this
      ensures trace == old(trace) + [LatchWrite(dac, active)]
    {
      if active {
        trace := trace + [PinWrite(PinOf(dac, Latch), LatchActiveLevel)];
      } else {
        trace := trace + [PinWrite(PinOf(dac, Latch), !LatchActiveLevel)];
      }
    }

    /** dacBspInit: both latches inactive, both clocks high, both data lines low. */
    method Init()
      modifies this
      ensures trace == old(trace) + InitTrace()
    {
      LatchStateSet(ForwardBackward, false);
      LatchStateSet(LeftRight, false);
      ClockStateSet(ForwardBackward, true);
      ClockStateSet(LeftRight, true);
      DataStateSet(ForwardBackward, false);
      DataStateSet(LeftRight, false);
    }

    /** dacBspSet: clock low, twelve bits most significant first, then latch inactive and clock high. */
    method Set(dac: DacSelect, val: bv16)
      modifies this
      ensures trace == old(trace) + SetTrace(dac, val)
    {
      ClockStateSet(dac, false);
      SendBits(dac, val);
      LatchStateSet(dac, false);
      ClockStateSet(dac, true);
    }

    /** dacBspSet's loop over the twelve bits. */
    method SendBits(dac: DacSelect, val: bv16)
      modifies this
      ensures trace == old(trace) + BitsTrace(dac, val, NumBits)
    {
      var i := 0;
      while i < NumBits
        invariant i <= NumBits
        invariant trace == old(trace) + BitsTrace(dac, val, i)
        decreases NumBits - i
      {
        SendBit(dac, val, i);
        BitsTraceStep(dac, val, i);
        i := i + 1;
      }
    }

    /** One pass of dacBspSet's loop. */
    method SendBit(dac: DacSelect, val: bv16, i: nat)
      requires i < NumBits
      modifies this
      ensures trace == old(trace) + BitTrace(dac, val, i)
    {
      DataStateSet(dac, val & BitMasks[i] != 0);
      ClockStateSet(dac, true);
      if i == NumBits - 1 {
        LatchStateSet(dac, true);
      }
      ClockStateSet(dac, false);
    }
  }

  /** Bits of `val` above bit 11 never reach the data line. */
  lemma MsbFirstIgnoresHighBits(val: bv16)
    ensures MsbFirst(val) == MsbFirst(val & ValueMask)
  {
    forall i | 0 <= i < NumBits
      ensures MsbFirst(val)[i] == MsbFirst(val & ValueMask)[i]
    {
      assert (val & ValueMask) & BitMasks[i] == val & BitMasks[i];
    }
  }

  // ---------------------------------------------------------------------
  // The receiving DAC.

  /**
   * The chip's view of its three lines: their levels, its shift register
   * (the last twelve bits clocked in, oldest first), its output register, the
   * bits sampled so far and the number of loads.
   */
  datatype Chip = Chip(clk: bool, data: bool, latchLevel: bool, shift: seq<bool>, out: seq<bool>,
                       sampled: seq<bool>, loads: nat)

  /** A shift register of twelve cells after `b` is clocked in. */
  function ShiftIn(shift: seq<bool>, b: bool): (r: seq<bool>)
  {
    if |shift| < NumBits then shift + [b] else shift[|shift| - NumBits + 1..] + [b]
  }

  /**
   * One pin write as the chip of `dac` sees it: a rising clock edge shifts the
   * data level in, an active latch level copies the shift register to the
   * output, and writes to other pins are ignored.
   */
  function Receive(dac: DacSelect, c: Chip, w: PinWrite): Chip
  {
    if w.pin == PinOf(dac, Clock) then
      if !c.clk && w.high then
        c.(clk := true, shift := ShiftIn(c.shift, c.data), sampled := c.sampled + [c.data])
      else c.(clk := w.high)
    else if w.pin == PinOf(dac, Data) then c.(data := w.high)
    else if w.pin == PinOf(dac, Latch) then
      if w.high == LatchActiveLevel then c.(latchLevel := w.high, out := c.shift, loads := c.loads + 1)
      else c.(latchLevel := w.high)
    else c
  }

  /** The chip after a sequence of writes. */
  function Run(dac: DacSelect, c: Chip, ws: seq<PinWrite>): Chip
  {
    if ws == [] then c else Receive(dac, Run(dac, c, ws[..|ws| - 1]), ws[|ws| - 1])
  }

  lemma RunSnoc(dac: DacSelect, c: Chip, ws: seq<PinWrite>, w: PinWrite)
    ensures Run(dac, c, ws + [w]) == Receive(dac, Run(dac, c, ws), w)
  {
    assert (ws + [w])[..|ws|] == ws;
  }

  lemma {:induction false} RunAppend(dac: DacSelect, c: Chip, a: seq<PinWrite>, b: seq<PinWrite>)
    ensures Run(dac, c, a + b) == Run(dac, Run(dac, c, a), b)
    decreases |b|
  {
    if b == [] {
      assert a + b == a;
    } else {
      assert (a + b)[..|a + b| - 1] == a + b[..|b| - 1];
      RunAppend(dac, c, a, b[..|b| - 1]);
    }
  }

  /** The last twelve bits of a sequence (all of it when shorter). */
  function LastTwelve(bs: seq<bool>): seq<bool>
  {
    if |bs| <= NumBits then bs else bs[|bs| - NumBits..]
  }

  /** Clocking in one bit keeps the register equal to the last twelve bits clocked in. */
  lemma ShiftInTracks(shift: seq<bool>, bs: seq<bool>, b: bool)
    requires shift == LastTwelve(bs)
    ensures ShiftIn(shift, b) == LastTwelve(bs + [b])
  {
  }

  /** What one loop pass `i` does to a chip whose clock was low: `c` before, `r` after. */
  predicate BitDone(c: Chip, r: Chip, val: bv16, i: nat)
    requires i < NumBits
  {
    var s := ShiftIn(c.shift, DataBit(val, i));
    !r.clk && r.data == DataBit(val, i) && r.shift == s && r.sampled == c.sampled + [DataBit(val, i)] &&
    r.loads == c.loads + (if i == NumBits - 1 then 1 else 0) &&
    r.out == (if i == NumBits - 1 then s else c.out) &&
    r.latchLevel == (if i == NumBits - 1 then LatchActiveLevel else c.latchLevel)
  }

  lemma RunOne(dac: DacSelect, c: Chip, w: PinWrite)
    ensures Run(dac, c, [w]) == Receive(dac, c, w)
  {
    assert [w][..0] == [];
  }

  /** The chip after one loop pass, starting with its clock low. */
  lemma PassReceived(dac: DacSelect, c: Chip, bit: bool, last: bool)
    requires !c.clk
    ensures var r := Run(dac, c, PassTrace(dac, bit, last));
      var s := ShiftIn(c.shift, bit);
      !r.clk && r.data == bit && r.shift == s && r.sampled == c.sampled + [bit] &&
      r.loads == c.loads + (if last then 1 else 0) &&
      r.out == (if last then s else c.out) &&
      r.latchLevel == (if last then LatchActiveLevel else c.latchLevel)
  {
    var w0, w1, w3 := DataWrite(dac, bit), ClockWrite(dac, true), ClockWrite(dac, false);
    var c0 := c.(data := bit);
    RunOne(dac, c, w0);
    var c1 := c0.(clk := true, shift := ShiftIn(c.shift, bit), sampled := c.sampled + [bit]);
    RunSnoc(dac, c, [w0], w1);
    assert [w0] + [w1] == [w0, w1];
    assert Run(dac, c, [w0, w1]) == c1;
    if last {
      var w2 := LatchWrite(dac, true);
      var c2 := c1.(latchLevel := LatchActiveLevel, out := c1.shift, loads := c.loads + 1);
      RunSnoc(dac, c, [w0, w1], w2);
      assert [w0, w1] + [w2] == [w0, w1, w2];
      assert Run(dac, c, [w0, w1, w2]) == c2;
      RunSnoc(dac, c, [w0, w1, w2], w3);
      assert [w0, w1, w2] + [w3] == PassTrace(dac, bit, last);
    } else {
      RunSnoc(dac, c, [w0, w1], w3);
      assert [w0, w1] + [w3] == PassTrace(dac, bit, last);
    }
  }

  /** The chip after loop pass `i`, starting with its clock low. */
  lemma BitReceived(dac: DacSelect, c: Chip, val: bv16, i: nat)
    requires i < NumBits && !c.clk
    ensures BitDone(c, Run(dac, c, BitTrace(dac, val, i)), val, i)
  {
    PassReceived(dac, c, DataBit(val, i), i == NumBits - 1);
  }

  lemma MsbFirstPrefix(val: bv16, n: nat)
    requires 0 < n <= NumBits
    ensures MsbFirst(val)[..n] == MsbFirst(val)[..n - 1] + [DataBit(val, n - 1)]
  {
    assert MsbFirst(val)[..n] == MsbFirst(val)[..n - 1] + [MsbFirst(val)[n - 1]];
  }

  /** What the first `n` loop passes do to a chip whose clock was low. */
  predicate BitsDone(c: Chip, r: Chip, val: bv16, n: nat)
    requires n <= NumBits
  {
    !r.clk && r.sampled == c.sampled + MsbFirst(val)[..n] &&
    r.shift == LastTwelve(r.sampled) && (n > 0 ==> r.data == DataBit(val, n - 1)) &&
    r.loads == c.loads + (if n == NumBits then 1 else 0) &&
    r.out == (if n == NumBits then r.shift else c.out) &&
    r.latchLevel == (if n == NumBits then LatchActiveLevel else c.latchLevel)
  }

  /** The chip after the first `n` loop passes, pass by pass. */
  function Passes(dac: DacSelect, c: Chip, val: bv16, n: nat): Chip
    requires n <= NumBits
  {
    if n == 0 then c else Run(dac, Passes(dac, c, val, n - 1), BitTrace(dac, val, n - 1))
  }

  /** Running the writes of the first `n` passes is running them pass by pass. */
  lemma {:induction false} RunBits(dac: DacSelect, c: Chip, val: bv16, n: nat)
    requires n <= NumBits
    ensures Run(dac, c, BitsTrace(dac, val, n)) == Passes(dac, c, val, n)
  {
    if n > 0 {
      var prior, pass := BitsTrace(dac, val, n - 1), BitTrace(dac, val, n - 1);
      calc {
        Run(dac, c, BitsTrace(dac, val, n));
        { BitsTraceStep(dac, val, n - 1); }
        Run(dac, c, prior + pass);
        { RunAppend(dac, c, prior, pass); }
        Run(dac, Run(dac, c, prior), pass);
        { RunBits(dac, c, val, n - 1); }
        Run(dac, Passes(dac, c, val, n - 1), pass);
      }
    }
  }

  /** The chip after the first `n` loop passes, starting with its clock low. */
  lemma {:induction false} BitsReceived(dac: DacSelect, c: Chip, val: bv16, n: nat)
    requires n <= NumBits && !c.clk && c.shift == LastTwelve(c.sampled)
    ensures BitsDone(c, Passes(dac, c, val, n), val, n)
  {
    if n == 0 {
      assert MsbFirst(val)[..0] == [] && c.sampled + [] == c.sampled;
    } else {
      BitsReceived(dac, c, val, n - 1);
      var r := Passes(dac, c, val, n - 1);
      BitReceived(dac, r, val, n - 1);
      BitsStep(c, r, Passes(dac, c, val, n), val, n);
    }
  }

  lemma BitsStep(c: Chip, r: Chip, r2: Chip, val: bv16, n: nat)
    requires 0 < n <= NumBits && BitsDone(c, r, val, n - 1) && BitDone(r, r2, val, n - 1)
    ensures BitsDone(c, r2, val, n)
  {
    ShiftInTracks(r.shift, r.sampled, DataBit(val, n - 1));
    MsbFirstPrefix(val, n);
  }

  /** The last twelve of anything followed by twelve bits are those twelve bits. */
  lemma LastTwelveOfSuffix(a: seq<bool>, b: seq<bool>)
    requires |b| == NumBits
    ensures LastTwelve(a + b) == b
  {
    assert (a + b)[|a + b| - NumBits..] == b;
  }

  /**
   * What one dacBspSet call does to a chip `c` whose register holds the last
   * bits it sampled, `r` being the chip afterwards: twelve rising clock edges
   * sample the value bits most significant first, the latch loads them into
   * the output exactly once, and the closing clock-high write is a thirteenth
   * rising edge, after the load, that shifts bit 0 in again but leaves the
   * output alone; the lines end with the clock high and the latch inactive.
   */
  predicate SetDone(c: Chip, r: Chip, val: bv16)
  {
    r.sampled == c.sampled + MsbFirst(val) + [DataBit(val, NumBits - 1)] &&
    r.out == MsbFirst(val & ValueMask) && r.loads == c.loads + 1 &&
    r.shift == LastTwelve(r.sampled) && r.clk && r.latchLevel != LatchActiveLevel
  }

  /** The chip after dacBspSet's writes: clock low, the twelve passes, latch inactive, clock high. */
  function AfterSet(dac: DacSelect, c: Chip, val: bv16): Chip
  {
    var c2 := Passes(dac, Receive(dac, c, ClockWrite(dac, false)), val, NumBits);
    Receive(dac, Receive(dac, c2, LatchWrite(dac, false)), ClockWrite(dac, true))
  }

  lemma SetSplit(dac: DacSelect, c: Chip, val: bv16)
    ensures Run(dac, c, SetTrace(dac, val)) == AfterSet(dac, c, val)
  {
    var first := [ClockWrite(dac, false)];
    var bits := BitsTrace(dac, val, NumBits);
    var last0, last1 := LatchWrite(dac, false), ClockWrite(dac, true);
    RunSnoc(dac, c, [], first[0]);
    assert [] + [first[0]] == first;
    RunAppend(dac, c, first, bits);
    RunBits(dac, Run(dac, c, first), val, NumBits);
    RunSnoc(dac, c, first + bits, last0);
    RunSnoc(dac, c, first + bits + [last0], last1);
    assert first + bits + [last0] + [last1] == SetTrace(dac, val);
  }

  lemma SetCombine(dac: DacSelect, c: Chip, val: bv16)
    requires c.shift == LastTwelve(c.sampled)
    ensures SetDone(c, AfterSet(dac, c, val), val)
  {
    var c1 := Receive(dac, c, ClockWrite(dac, false));
    BitsReceived(dac, c1, val, NumBits);
    var c2 := Passes(dac, c1, val, NumBits);
    assert MsbFirst(val)[..NumBits] == MsbFirst(val);
    LastTwelveOfSuffix(c.sampled, MsbFirst(val));
    MsbFirstIgnoresHighBits(val);
    ShiftInTracks(c2.shift, c2.sampled, c2.data);
  }

  /** One dacBspSet call, whatever the chip's line levels before it. */
  lemma SetLoadsValue(dac: DacSelect, c: Chip, val: bv16)
    requires c.shift == LastTwelve(c.sampled)
    ensures SetDone(c, Run(dac, c, SetTrace(dac, val)), val)
  {
    SetSplit(dac, c, val);
    SetCombine(dac, c, val);
  }

  /** dacBspSet drives only the three lines of the DAC it was given. */
  lemma SetTouchesOnlyItsDac(dac: DacSelect, val: bv16)
    ensures forall k :: 0 <= k < |SetTrace(dac, val)| ==>
      SetTrace(dac, val)[k].pin in {PinOf(dac, Clock), PinOf(dac, Data), PinOf(dac, Latch)}
  {
    BitsOnlyItsDac(dac, val, NumBits);
  }

  lemma {:induction false} BitsOnlyItsDac(dac: DacSelect, val: bv16, n: nat)
    requires n <= NumBits
        ensures forall k :: 0 <= k < |BitsTrace(dac, val, n)| ==>
      BitsTrace(dac, val, n)[k].pin in {PinOf(dac, Clock), PinOf(dac, Data), PinOf(dac, Latch)}
  {
    if n > 0 {
      BitsOnlyItsDac(dac, val, n - 1);
    }
  }

  /**
   * dacBspInit leaves each chip with its clock high and its latch inactive,
   * the line state every dacBspSet call ends in, and loads neither chip.
   */
  lemma InitLeavesIdleLines(dac: DacSelect, c: Chip)
    ensures var r := Run(dac, c, InitTrace());
      r.clk && r.latchLevel != LatchActiveLevel && !r.data && r.loads == c.loads && r.out == c.out
  {
    var t := InitTrace();
    RunSnoc(dac, c, [], t[0]);
    assert [] + [t[0]] == t[..1];
    RunSnoc(dac, c, t[..1], t[1]);
    assert t[..1] + [t[1]] == t[..2];
    RunSnoc(dac, c, t[..2], t[2]);
    assert t[..2] + [t[2]] == t[..3];
    RunSnoc(dac, c, t[..3], t[3]);
    assert t[..3] + [t[3]] == t[..4];
    RunSnoc(dac, c, t[..4], t[4]);
    assert t[..4] + [t[4]] == t[..5];
    RunSnoc(dac, c, t[..5], t[5]);
    assert t[..5] + [t[5]] == t;
  }
}
