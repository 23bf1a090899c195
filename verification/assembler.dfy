/** Frame assembly, `prepare_buffer_after_building` of the packet class: the
    payload the base class packed is stuffed, the eight-byte header is put in
    front of it and the CRC of everything so far is appended, low byte first.

    Frame layout (offsets into the result):
      0-2  `FF FF FD`    start-of-frame marker
      3    `00`          reserved
      4    id
      5-6  length        little-endian, stuffed payload length + 3
      7    instruction
      8-   stuffed payload
      last two           CRC-16 of all bytes before it, little-endian */
module Assembler {
  import opened Bytes
  import opened Stuffing
  import opened Crc16

  /** A built packet: its wire bytes and the `crc` metadata. */
  datatype Built = Built(buffer: seq<Byte>, crc: bv16)

  /** `struct.pack` refuses an id outside one byte, or a length field that
      does not fit in 16 bits. */
  datatype BuildError = IdOutOfRange | LengthOutOfRange

  /** The bytes `struct.pack("<5BHB", ...)` produces for a fitting id and
      length. */
  function Header(id: Byte, length: nat, instruction: Byte): (h: seq<Byte>)
    requires length < 0x1_0000
    ensures |h| == 8
    ensures h[..3] == [0xFF, 0xFF, 0xFD] && h[3] == 0x00
    ensures h[4] == id && LE16(h[5], h[6]) == length && h[7] == instruction
  {
    [0xFF, 0xFF, 0xFD, 0x00, id] + ToLE16(length) + [instruction]
  }

  /** `prepare_buffer_after_building` for packet id `id`, opcode `instruction`
      and packed payload `payload`. */
  function PrepareBuffer(id: int, instruction: Byte, payload: seq<Byte>): (r: Result<Built, BuildError>)
    ensures r.Success? <==> 0 <= id < 256 && |Stuff(payload)| + 3 < 0x1_0000
    ensures r.Failure? ==> (r.error == IdOutOfRange <==> !(0 <= id < 256))
    ensures r.Success? ==>
      var f := r.value.buffer;
      |f| == |Stuff(payload)| + 10 &&
      f[..4] == [0xFF, 0xFF, 0xFD, 0x00] && f[4] as int == id && f[7] == instruction &&
      LE16(f[5], f[6]) + 7 == |f| &&
      f[8..|f| - 2] == Stuff(payload) &&
      r.value.crc == UpdateCrc(0, f[..|f| - 2]) &&
      f[|f| - 2..] == Bv16ToLE(r.value.crc)
  {
    var stuffed := Stuff(payload);
    if !(0 <= id < 256) then Failure(IdOutOfRange)
    else if |stuffed| + 3 >= 0x1_0000 then Failure(LengthOutOfRange)
    else
      ByteOfInt(id);
      Success(Frame(id as Byte, instruction, stuffed))
  }

  /** Header, stuffed payload and CRC footer, once the id and the length are
      known to fit. */
  function Frame(id: Byte, instruction: Byte, stuffed: seq<Byte>): (b: Built)
    requires |stuffed| + 3 < 0x1_0000
    ensures var f := b.buffer;
      |f| == |stuffed| + 10 &&
      f[..4] == [0xFF, 0xFF, 0xFD, 0x00] && f[4] == id && f[7] == instruction &&
      LE16(f[5], f[6]) + 7 == |f| &&
      f[8..|f| - 2] == stuffed &&
      b.crc == UpdateCrc(0, f[..|f| - 2]) &&
      f[|f| - 2..] == Bv16ToLE(b.crc)
  {
    var framed := Header(id, |stuffed| + 3, instruction) + stuffed;
    var crc := UpdateCrc(0, framed);
    assert framed[..4] == [0xFF, 0xFF, 0xFD, 0x00];
    Built(framed + Bv16ToLE(crc), crc)
  }

  /** The stuffing loop, and the replacement of the buffer only when a byte
      was inserted: either way the buffer ends up stuffed. */
  method StuffIfNeeded(instruction: Byte, payload: seq<Byte>) returns (buffer: seq<Byte>)
    ensures buffer == Stuff(payload)
    ensures FdInsertion(payload, buffer)
  {
    var stuffed, needed := StuffPayload(instruction, payload);
    buffer := payload;
    if needed {
      buffer := stuffed;
    } else {
      NoCompletionStuffIdentity(1, payload);
    }
  }

  /** The method as written: stuff with the loop, pack the header, run the CRC
      loop over header and payload, append the footer. */
  method PrepareBufferLoop(id: int, instruction: Byte, payload: seq<Byte>) returns (r: Result<Built, BuildError>)
    ensures r == PrepareBuffer(id, instruction, payload)
  {
    var buffer := StuffIfNeeded(instruction, payload);
    if !(0 <= id < 256) {
      return Failure(IdOutOfRange);
    }
    if |buffer| + 3 >= 0x1_0000 {
      return Failure(LengthOutOfRange);
    }
    var framed := Header(id as Byte, |buffer| + 3, instruction) + buffer;
    var crc := UpdateCrcLoop(0, framed);
    r := Success(Built(framed + Bv16ToLE(crc), crc));
    assert r == Success(Frame(id as Byte, instruction, buffer));
  }

  /** Without a byte to stuff the payload appears in the frame unchanged. */
  lemma PayloadVerbatim(id: int, instruction: Byte, payload: seq<Byte>)
    requires forall i :: 0 <= i < |payload| ==> payload[i] != 0xFD
    requires PrepareBuffer(id, instruction, payload).Success?
    ensures var f := PrepareBuffer(id, instruction, payload).value.buffer;
      |f| == |payload| + 10 && f[8..|f| - 2] == payload
  {
    NoFdUnchanged(1, payload);
  }
}
