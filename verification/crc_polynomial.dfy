/** The polynomial definition of the Dynamixel 2.0 CRC-16 lookup table: a
    16-bit shift register, most significant bit first, generator 0x8005, no
    reflection. It is the reference the table of the protocol class is proved
    against, entry by entry. */
module CrcPolynomial {
  import opened Bytes

  /** The generator polynomial x^16 + x^15 + x^2 + 1 without its top term. */
  const Polynomial: bv16 := 0x8005

  /** Shift the register left one bit, xoring in the polynomial when the bit
      shifted out was set. */
  function ShiftStep(x: bv16): bv16
  {
    if x & 0x8000 == 0 then x << 1 else (x << 1) ^ Polynomial
  }

  /** Eight shift steps: the processing of one data byte. */
  function Shift8(x: bv16): bv16
  {
    ShiftStep(ShiftStep(ShiftStep(ShiftStep(ShiftStep(ShiftStep(ShiftStep(ShiftStep(x))))))))
  }

  /** A lookup-table entry as the polynomial defines it: the index placed in the
      high byte of an empty register and shifted through eight times. */
  function PolyEntry(i: Byte): bv16
  {
    Shift8((i as bv16) << 8)
  }
}
