// Fixed-width integers of the PIC18 firmware and the byte arithmetic shared by
// the packet protocol and the EEPROM store.

module Bytes {

  /** An unsigned 8-bit value (uint8_t). */
  type byte = x: int | 0 <= x < 0x100

  /** An unsigned 16-bit value (uint16_t). */
  type u16 = x: int | 0 <= x < 0x1_0000

  /** The sum of a sequence of bytes, in unbounded integers. */
  function Sum(s: seq<byte>): nat
  {
    if |s| == 0 then 0 else Sum(s[..|s| - 1]) + s[|s| - 1]
  }

  /** Truncation to uint8_t, as a C assignment to an 8-bit variable does it. */
  function Wrap8(x: int): byte
  {
    x % 0x100
  }

  /** Truncation to uint16_t. */
  function Wrap16(x: int): u16
  {
    x % 0x1_0000
  }

  /** The most significant byte of a 16-bit value. */
  function Hi(x: u16): byte
  {
    x / 0x100
  }

  /** The least significant byte of a 16-bit value. */
  function Lo(x: u16): byte
  {
    x % 0x100
  }

  /** `(hi << 8) | lo`. */
  function Join(hi: byte, lo: byte): u16
  {
    hi * 0x100 + lo
  }

  /** The C cast of a uint16_t to int16_t (two's complement). */
  function AsInt16(x: u16): (r: int)
    ensures -0x8000 <= r < 0x8000
    ensures Wrap16(r) == x
  {
    if x < 0x8000 then x else x - 0x1_0000
  }

  /** Appending one byte adds it to the sum. */
  lemma SumSnoc(s: seq<byte>, b: byte)
    ensures Sum(s + [b]) == Sum(s) + b
  {
    assert (s + [b])[..|s|] == s;
  }

  /** Splitting a 16-bit value into bytes and joining them again is the identity. */
  lemma JoinSplit(x: u16)
    ensures Join(Hi(x), Lo(x)) == x
  {
  }

  /** Joining two bytes and splitting the result gives the bytes back. */
  lemma SplitJoin(hi: byte, lo: byte)
    ensures Hi(Join(hi, lo)) == hi && Lo(Join(hi, lo)) == lo
  {
  }
}
