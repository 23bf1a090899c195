/** Byte-level vocabulary shared by every part of the Dynamixel 2.0 codec:
    the byte type, optional and fallible results, and the little-endian
    16-bit integers that the frame header and the CRC footer use. */
module Bytes {

  /** One octet on the wire. */
  type Byte = bv8

  /** Python's `None`-or-value, as used for the `last_instruction` cell and
      for `get_field_info`. */
  datatype Option<+T> = None | Some(value: T)

  /** A value, or the exception the source would raise instead of returning it. */
  datatype Result<+T, +E> = Success(value: T) | Failure(error: E)

  /** `struct.unpack("<H", [lo, hi])`. */
  function LE16(lo: Byte, hi: Byte): (n: nat)
    ensures n < 0x1_0000
    ensures n % 256 == lo as int && n / 256 == hi as int
  {
    lo as int + 256 * hi as int
  }

  /** `struct.pack("<H", n)` for an `n` that fits in 16 bits. */
  function ToLE16(n: nat): (bs: seq<Byte>)
    requires n < 0x1_0000
    ensures |bs| == 2
    ensures LE16(bs[0], bs[1]) == n
  {
    ByteOfInt(n % 256);
    ByteOfInt(n / 256);
    [(n % 256) as Byte, (n / 256) as Byte]
  }

  /** The two wire bytes of a 16-bit register, low byte first. */
  function Bv16ToLE(x: bv16): (bs: seq<Byte>)
    ensures |bs| == 2
    ensures LE16(bs[0], bs[1]) == x as int
  {
    ToLE16(x as int)
  }

  /** Converting a small integer to a byte and back loses nothing. */
  lemma ByteOfInt(k: nat)
    requires k < 256
    ensures (k as Byte) as int == k
  {
    assert k % 256 == k;
  }
}
