// The on-chip data EEPROM driver: a 256-byte store addressed by 8-bit
// addresses, written and read byte by byte.

module EepromBsp {
  import opened Bytes

  /** eepromBspSizeOfEeprom. */
  const SizeOfEeprom: nat := 256

  /**
   * The EEPROM after the bytes of `data` are written from `start` on. The
   * address `start + i` is passed to the byte writer as a uint8_t, so it wraps
   * at 256; `data` holds fewer than 256 bytes, so no address is written twice.
   */
  function Written(m: seq<byte>, start: byte, data: seq<byte>): (r: seq<byte>)
    requires |m| == SizeOfEeprom && |data| < SizeOfEeprom
    ensures |r| == SizeOfEeprom
  {
    seq(SizeOfEeprom, a requires 0 <= a < SizeOfEeprom =>
      if (a - start) % 0x100 < |data| then data[(a - start) % 0x100] else m[a])
  }

  /** The `n` bytes read from `start` on, with the same 8-bit addressing. */
  function Section(m: seq<byte>, start: byte, n: nat): (r: seq<byte>)
    requires |m| == SizeOfEeprom
    ensures |r| == n
  {
    seq(n, i requires 0 <= i < n => m[(start + i) % 0x100])
  }

  /** Writing one more byte extends a write by one address. */
  lemma WrittenStep(m: seq<byte>, start: byte, data: seq<byte>, i: nat)
    requires |m| == SizeOfEeprom && i < |data| < SizeOfEeprom
    ensures Written(m, start, data[..i + 1])
         == Written(m, start, data[..i])[(start + i) % 0x100 := data[i]]
  {
    var lhs := Written(m, start, data[..i + 1]);
    var rhs := Written(m, start, data[..i])[(start + i) % 0x100 := data[i]];
    forall a | 0 <= a < SizeOfEeprom
      ensures lhs[a] == rhs[a]
    {
      if a == (start + i) % 0x100 {
        assert (a - start) % 0x100 == i;
      }
    }
  }

  /** Reading back a region just written returns exactly the data written. */
  lemma ReadAfterWrite(m: seq<byte>, start: byte, data: seq<byte>)
    requires |m| == SizeOfEeprom && |data| < SizeOfEeprom
    ensures Section(Written(m, start, data), start, |data|) == data
  {
    var w := Written(m, start, data);
    forall i | 0 <= i < |data|
      ensures Section(w, start, |data|)[i] == data[i]
    {
      assert ((start + i) % 0x100 - start) % 0x100 == i;
    }
  }

  /**
   * Under the driver's bound `start + n < 256` the write covers exactly the
   * addresses start .. start + n - 1 and leaves every other address as it was.
   */
  lemma WrittenContiguous(m: seq<byte>, start: byte, data: seq<byte>)
    requires |m| == SizeOfEeprom && start + |data| < SizeOfEeprom
    ensures Written(m, start, data) == m[..start] + data + m[start + |data|..]
  {
    var w := Written(m, start, data);
    var c := m[..start] + data + m[start + |data|..];
    forall a | 0 <= a < SizeOfEeprom
      ensures w[a] == c[a]
    {
      if a < start {
        assert (a - start) % 0x100 == a - start + 0x100;
      } else if a < start + |data| {
        assert (a - start) % 0x100 == a - start;
      } else {
        assert (a - start) % 0x100 == a - start;
      }
    }
  }

  /** Under the same bound a read is the contiguous slice start .. start + n - 1. */
  lemma SectionContiguous(m: seq<byte>, start: byte, n: nat)
    requires |m| == SizeOfEeprom && start + n < SizeOfEeprom
    ensures Section(m, start, n) == m[start..start + n]
  {
  }

  /** The EEPROM itself: the data memory the driver reads and writes. */
  class Eeprom {
    const mem: array<byte>

    ghost predicate Valid()
      reads this
    {
      mem.Length == SizeOfEeprom
    }

    /** The device, holding whatever it was last programmed with. */
    constructor (contents: seq<byte>)
      requires |contents| == SizeOfEeprom
      ensures Valid() && fresh(mem) && mem[..] == contents
    {
      mem := new byte[SizeOfEeprom](i requires 0 <= i < SizeOfEeprom => contents[i]);
    }

    /**
     * eepromBspWriteBuffer (through writeBuffer): writes data[i] at
     * start + i for i < numBytes. waitForEepromToBeWritable always reports the
     * EEPROM ready, so the write never times out and the result is true.
     */
    method WriteBuffer(start: byte, numBytes: byte, data: seq<byte>) returns (ok: bool)
      requires Valid() && numBytes <= |data|
      modifies mem
      ensures ok
      ensures mem[..] == Written(old(mem[..]), start, data[..numBytes])
    {
      ghost var m0 := mem[..];
      ghost var d := data[..numBytes];
      var i := 0;
      assert d[..0] == [];
      assert Written(m0, start, []) == m0;
      while i < numBytes
        invariant 0 <= i <= numBytes
        invariant mem[..] == Written(m0, start, d[..i])
      {
        WrittenStep(m0, start, d, i);
        mem[(start + i) % 0x100] := data[i];
        i := i + 1;
      }
      assert d[..numBytes] == d;
      ok := true;
    }

    /** eepromBspWriteByte: a one-byte buffer write, with no bound check. */
    method WriteByte(address: byte, b: byte) returns (ok: bool)
      requires Valid()
      modifies mem
      ensures ok
      ensures mem[..] == old(mem[..])[address := b]
    {
      ghost var m0 := mem[..];
      ok := WriteBuffer(address, 1, [b]);
      assert [b][..1] == [b];
      forall a | 0 <= a < SizeOfEeprom
        ensures mem[a] == m0[address := b][a]
      {
        if a == address {
          assert (a - address) % 0x100 == 0;
        }
      }
    }

    /**
     * eepromBspReadSection (through readIntoBuffer): buffer[i] receives the
     * byte at start + i for i < numBytes; the rest of the buffer is untouched.
     * The read always succeeds.
     */
    method ReadSection(start: byte, numBytes: byte, buffer: array<byte>) returns (ok: bool)
      requires Valid() && numBytes <= buffer.Length && buffer != mem
      modifies buffer
      ensures ok
      ensures buffer[..numBytes] == Section(mem[..], start, numBytes)
      ensures buffer[numBytes..] == old(buffer[numBytes..])
    {
      var i := 0;
      while i < numBytes
        invariant 0 <= i <= numBytes
        invariant forall k :: 0 <= k < i ==> buffer[k] == mem[(start + k) % 0x100]
        invariant forall k :: numBytes <= k < buffer.Length ==> buffer[k] == old(buffer[k])
      {
        buffer[i] := mem[(start + i) % 0x100];
        i := i + 1;
      }
      ok := true;
    }
  }
}
