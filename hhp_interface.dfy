// The hand-held-programmer link driver: reads one length-prefixed frame into
// the receive buffer, byte by byte, from the link's byte receiver.

module HhpInterface {
  import opened Bytes
  import opened Wrappers

  /** HHP_RX_TX_BUFF_LEN. */
  const BuffLen: nat := 8

  /**
   * The outcome of the k-th byte read of the link (haHhpBsp_RxByte): a byte,
   * or None when the read timed out. Reads past the end of the given
   * sequence time out.
   */
  function ReadAt(input: seq<Option<byte>>, k: nat): Option<byte>
  {
    if k < |input| then input[k] else None
  }

  /** The first read in [lo, hi) that times out, or `hi` when none does. */
  function FirstTimeout(input: seq<Option<byte>>, lo: nat, hi: nat): (r: nat)
    requires lo <= hi
    ensures lo <= r <= hi
    ensures forall k :: lo <= k < r ==> ReadAt(input, k).Some?
    ensures r < hi ==> ReadAt(input, r).None?
    decreases hi - lo
  {
    if lo == hi || ReadAt(input, lo).None? then lo else FirstTimeout(input, lo + 1, hi)
  }

  /** What haHhp_RxPacket returns, leaves in the buffer, and how many reads it made. */
  datatype RxResult = RxResult(ok: bool, buffer: seq<byte>, numReads: nat)

  /** The buffer with bytes 1 .. f - 1 taken from reads 1 .. f - 1. */
  function Filled(buf: seq<byte>, input: seq<Option<byte>>, f: nat): (r: seq<byte>)
    requires forall k :: 1 <= k < f ==> ReadAt(input, k).Some?
    ensures |r| == |buf|
  {
    seq(|buf|, k requires 0 <= k < |buf| => if 1 <= k < f then ReadAt(input, k).value else buf[k])
  }

  /**
   * haHhp_RxPacket. A timed-out read leaves its buffer byte as it was; a
   * length byte above the buffer size is stored but ends the frame.
   */
  function RxPacket(buf: seq<byte>, input: seq<Option<byte>>): (r: RxResult)
    requires |buf| == BuffLen
    ensures |r.buffer| == BuffLen
  {
    match ReadAt(input, 0)
    case None => RxResult(false, buf, 1)
    case Some(len) =>
      if len > BuffLen then RxResult(false, buf[0 := len], 1)
      else if len <= 1 then RxResult(true, buf[0 := len], 1)
      else
        var f := FirstTimeout(input, 1, len);
        RxResult(f == len, Filled(buf[0 := len], input, f), if f < len then f + 1 else len)
  }

  /** A failed or over-long length byte ends the read at once with failure. */
  lemma RxRejectsLength(buf: seq<byte>, input: seq<Option<byte>>)
    requires |buf| == BuffLen
    requires ReadAt(input, 0).None? || ReadAt(input, 0).value > BuffLen
    ensures !RxPacket(buf, input).ok && RxPacket(buf, input).numReads == 1
    ensures RxPacket(buf, input).buffer[1..] == buf[1..]
  {
  }

  /** A frame is received iff its length fits and each of its remaining bytes is read in time. */
  lemma RxOkIff(buf: seq<byte>, input: seq<Option<byte>>)
    requires |buf| == BuffLen
    ensures RxPacket(buf, input).ok <==>
      ReadAt(input, 0).Some? && ReadAt(input, 0).value <= BuffLen &&
      forall k :: 1 <= k < ReadAt(input, 0).value ==> ReadAt(input, k).Some?
  {
    if ReadAt(input, 0).Some? && 1 < ReadAt(input, 0).value <= BuffLen {
      var len := ReadAt(input, 0).value;
      var f := FirstTimeout(input, 1, len);
      if f < len {
        assert ReadAt(input, f).None?;
      }
    }
  }

  /**
   * On success the buffer holds the length byte and then bytes 1 .. len - 1
   * from successive reads, one read per byte; bytes from len on are untouched.
   */
  lemma RxFillsInOrder(buf: seq<byte>, input: seq<Option<byte>>)
    requires |buf| == BuffLen && RxPacket(buf, input).ok
    ensures ReadAt(input, 0).Some? && ReadAt(input, 0).value <= BuffLen
    ensures RxPacket(buf, input).buffer[0] == ReadAt(input, 0).value
    ensures forall k :: 1 <= k < ReadAt(input, 0).value ==>
      RxPacket(buf, input).buffer[k] == ReadAt(input, k).value
    ensures forall k :: 1 <= k < BuffLen && ReadAt(input, 0).value <= k ==> RxPacket(buf, input).buffer[k] == buf[k]
    ensures RxPacket(buf, input).numReads == if ReadAt(input, 0).value == 0 then 1 else ReadAt(input, 0).value
  {
    var len := ReadAt(input, 0).value;
    if len > 1 {
      var f := FirstTimeout(input, 1, len);
      assert f == len;
    }
  }

  /**
   * When a byte of the frame times out, reading stops right there: every
   * earlier byte was read and stored, the failed one and later ones are not.
   */
  lemma RxStopsAtTimeout(buf: seq<byte>, input: seq<Option<byte>>)
    requires |buf| == BuffLen && ReadAt(input, 0).Some? && ReadAt(input, 0).value <= BuffLen
    requires !RxPacket(buf, input).ok
    ensures var len := ReadAt(input, 0).value; var r := RxPacket(buf, input);
      1 <= r.numReads - 1 < len && ReadAt(input, r.numReads - 1).None? &&
      (forall k :: 1 <= k < r.numReads - 1 ==> r.buffer[k] == ReadAt(input, k).value) &&
      (forall k :: r.numReads - 1 <= k < BuffLen ==> r.buffer[k] == buf[k])
  {
  }

  /** A length byte of 0 or 1 makes a complete frame with no further read. */
  lemma RxShortFrame(buf: seq<byte>, input: seq<Option<byte>>)
    requires |buf| == BuffLen && ReadAt(input, 0).Some? && ReadAt(input, 0).value <= 1
    ensures RxPacket(buf, input) == RxResult(true, buf[0 := ReadAt(input, 0).value], 1)
  {
  }

  /** haHhp_RxPacket on the receive buffer; `input` stands for the link. */
  method RxPacketInto(rxBuff: array<byte>, input: seq<Option<byte>>) returns (ok: bool, numReads: nat)
    requires rxBuff.Length == BuffLen
    modifies rxBuff
    ensures RxPacket(old(rxBuff[..]), input) == RxResult(ok, rxBuff[..], numReads)
  {
    ghost var buf := rxBuff[..];
    ok := true;
    numReads := 1;
    var first := ReadAt(input, 0);
    if first.Some? && first.value <= BuffLen {
      rxBuff[0] := first.value;
      var i := 1;
      while i < rxBuff[0] && ok
        invariant 1 <= i <= BuffLen && rxBuff[0] == first.value
        invariant ok ==> i <= 1 || i <= rxBuff[0]
        invariant ok ==> numReads == i && FirstTimeout(input, 1, i) == i
        invariant ok ==> rxBuff[..] == Filled(buf[0 := first.value], input, i)
        invariant !ok ==> (1 <= numReads - 1 < rxBuff[0] && numReads == i &&
          FirstTimeout(input, 1, rxBuff[0]) == numReads - 1 &&
          rxBuff[..] == Filled(buf[0 := first.value], input, numReads - 1))
      {
        var b := ReadAt(input, i);
        numReads := numReads + 1;
        if b.Some? {
          rxBuff[i] := b.value;
        } else {
          ok := false;
        }
        i := i + 1;
      }
    } else {
      if first.Some? {
        rxBuff[0] := first.value;
      }
      ok := false;
    }
  }
}
