/** Frame disassembly, `get_packet_from_buffer` of the protocol class: read
    the id, length and instruction at fixed offsets and the CRC from the last
    two bytes, unstuff the bytes between them, and pick the definition — from
    the frame's own instruction byte, or, for a status frame, from the
    instruction the parser/generator last sent. The CRC is read but never
    compared with the frame, and the length field is read but never used. */
module Disassembler {
  import opened Bytes
  import opened Stuffing
  import opened Registry
  import opened ParserState

  /** A decoded packet: its type, name, definition, the buffer handed on to
      the base class, and the metadata `id`, `instruction` and `crc`. */
  datatype Decoded = Decoded(ptype: PacketType, name: string, definition: Definition,
                             buffer: seq<Byte>, id: Byte, instruction: Byte, crc: nat)

  /** Why a buffer could not be decoded: `struct.unpack` found fewer than the
      eight header bytes, or no definition matched. In the second case the
      message reports the parser/generator's `last_instruction` (whatever the
      frame's own opcode); when that is `None`, formatting the message itself
      raises, which is a failure all the same. */
  datatype DecodeError = Truncated | NoDefinition(reported: Option<Byte>)

  /** The decoding result and the parser/generator state after it. */
  datatype Outcome = Outcome(result: Result<Decoded, DecodeError>, generator: ParserGenerator)

  /** `buffer[8:-2]`: the stuffed instruction parameters between header and
      CRC. Python's slice is empty when the buffer has fewer than ten bytes. */
  function PayloadSpan(b: seq<Byte>): (span: seq<Byte>)
    requires |b| >= 8
    ensures |span| == if |b| >= 10 then |b| - 10 else 0
    ensures forall i :: 0 <= i < |span| ==> span[i] == b[8 + i]
  {
    if |b| >= 10 then b[8..|b| - 2] else []
  }

  /** The buffer handed on to the base class: when the unstuffing loop dropped
      a byte, the unstuffed parameters followed by the two CRC bytes (the
      eight header bytes are not put back); otherwise the frame unchanged. */
  function PassedBuffer(b: seq<Byte>): (r: seq<Byte>)
    requires |b| >= 8
    ensures |r| >= 2 && r[|r| - 2..] == b[|b| - 2..]
    ensures Completions(0, PayloadSpan(b)) == 0 <==> r == b
    // After a drop the header is gone: what is left is the unstuffed span,
    // eight header bytes and one byte per drop shorter than the frame.
    ensures Completions(0, PayloadSpan(b)) > 0 ==>
      r[..|r| - 2] == Unstuff(PayloadSpan(b)) &&
      |r| == |b| - 8 - Completions(0, PayloadSpan(b))
  {
    var span := PayloadSpan(b);
    UnstuffLength(0, span);
    if Completions(0, span) > 0 then Unstuff(span) + b[|b| - 2..] else b
  }

  /** `get_packet_from_buffer(buffer, parser_generator)`. */
  function GetPacketFromBuffer(b: seq<Byte>, g: ParserGenerator): (o: Outcome)
    ensures o.result == Failure(Truncated) <==> |b| < 8
    ensures o.result.Success? ==>
      var d := o.result.value;
      d.id == b[4] && d.instruction == b[7] && d.crc == LE16(b[|b| - 2], b[|b| - 1]) &&
      (d.ptype == Status <==> b[7] == StatusOpcode) &&
      d.name == (if d.ptype == Status then "stat_" else "inst_") + d.definition.name
    // An instruction frame is looked up by its own opcode, and becomes the
    // last instruction.
    ensures |b| >= 8 && b[7] != StatusOpcode ==>
      (o.result.Success? <==> Lookup(b[7]).Some?) &&
      (o.result.Success? ==> Some(o.result.value.definition) == Lookup(b[7]) &&
                             o.generator == ParserGenerator(Some(b[7])))
    // A status frame is looked up by the last instruction sent.
    ensures |b| >= 8 && b[7] == StatusOpcode ==>
      (o.result.Success? <==> g.lastInstruction.Some? && Lookup(g.lastInstruction.value).Some?) &&
      (o.result.Success? ==> Some(o.result.value.definition) == Lookup(g.lastInstruction.value))
    ensures o.result.Failure? || o.result.value.ptype == Status ==> o.generator == g
    ensures o.result.Failure? && o.result.error.NoDefinition? ==> o.result.error.reported == g.lastInstruction
    // The packet carries the handed-on buffer, headerless after a drop.
    ensures o.result.Success? ==> o.result.value.buffer == PassedBuffer(b)
  {
    if |b| < 8 then Outcome(Failure(Truncated), g)
    else Resolve(b[4], b[7], LE16(b[|b| - 2], b[|b| - 1]), PassedBuffer(b), g)
  }

  /** The part of `get_packet_from_buffer` after the header and footer are
      read: choose the definition and name the packet. */
  function Resolve(id: Byte, instruction: Byte, crc: nat, passed: seq<Byte>, g: ParserGenerator): (o: Outcome)
    ensures o.result.Success? ==> o.result.value.buffer == passed && o.result.value.crc == crc
    ensures o.result.Failure? ==> o.result.error.NoDefinition?
  {
    if instruction == StatusOpcode then
      match g.lastInstruction
      case None => Outcome(Failure(NoDefinition(None)), g)
      case Some(op) =>
        match Lookup(op)
        case None => Outcome(Failure(NoDefinition(g.lastInstruction)), g)
        case Some(d) => Outcome(Success(Decoded(Status, "stat_" + d.name, d, passed, id, instruction, crc)), g)
    else
      match Lookup(instruction)
      case None => Outcome(Failure(NoDefinition(g.lastInstruction)), g)
      case Some(d) =>
        Outcome(Success(Decoded(Instruction, "inst_" + d.name, d, passed, id, instruction, crc)),
                ParserGenerator(Some(instruction)))
  }

  /** The CRC and the buffer handed on are only carried into the packet:
      they decide neither the outcome nor any other part of it. */
  lemma ResolveCarriesCrc(id: Byte, instruction: Byte, crc: nat, crc': nat,
                          passed: seq<Byte>, passed': seq<Byte>, g: ParserGenerator)
    ensures var o := Resolve(id, instruction, crc, passed, g);
      var o' := Resolve(id, instruction, crc', passed', g);
      o'.generator == o.generator && o'.result.Success? == o.result.Success? &&
      (o.result.Success? ==> o'.result.value == o.result.value.(buffer := passed', crc := crc'))
  {
  }

  /** A status frame received before anything was sent cannot be decoded. */
  lemma StatusBeforeTransmitFails(b: seq<Byte>)
    requires |b| >= 8 && b[7] == StatusOpcode
    ensures GetPacketFromBuffer(b, Fresh).result == Failure(NoDefinition(None))
  {
  }

  /** The footer is never checked: in a frame long enough for the footer not
      to overlap the header, replacing the two CRC bytes changes only the `crc`
      metadata and the last two bytes of the buffer handed on. */
  lemma CrcNeverChecked(b: seq<Byte>, lo: Byte, hi: Byte, g: ParserGenerator)
    requires |b| >= 10
    ensures var c := b[..|b| - 2] + [lo, hi];
      var o := GetPacketFromBuffer(b, g);
      var o' := GetPacketFromBuffer(c, g);
      o'.generator == o.generator &&
      o'.result.Success? == o.result.Success? &&
      (o.result.Success? ==>
        var d := o.result.value;
        var d' := o'.result.value;
        d' == d.(buffer := d'.buffer, crc := LE16(lo, hi)) &&
        d'.buffer == d.buffer[..|d.buffer| - 2] + [lo, hi])
  {
    var c := b[..|b| - 2] + [lo, hi];
    assert |c| == |b| && c[4] == b[4] && c[7] == b[7];
    assert c[|c| - 2] == lo && c[|c| - 1] == hi;
    PassedBufferTakesCrc(b, lo, hi);
    ResolveCarriesCrc(b[4], b[7], LE16(b[|b| - 2], b[|b| - 1]), LE16(lo, hi),
                      PassedBuffer(b), PassedBuffer(c), g);
  }

  /** Replacing the two CRC bytes of a frame of ten bytes or more leaves the
      stuffed span alone and replaces the last two bytes of the buffer
      handed on. */
  lemma PassedBufferTakesCrc(b: seq<Byte>, lo: Byte, hi: Byte)
    requires |b| >= 10
    ensures var c := b[..|b| - 2] + [lo, hi];
      PayloadSpan(c) == PayloadSpan(b) &&
      PassedBuffer(c) == PassedBuffer(b)[..|PassedBuffer(b)| - 2] + [lo, hi]
  {
    var c := b[..|b| - 2] + [lo, hi];
    assert PayloadSpan(c) == PayloadSpan(b);
    assert c[|c| - 2..] == [lo, hi];
    var p := PassedBuffer(b);
    if Completions(0, PayloadSpan(b)) > 0 {
      assert p == Unstuff(PayloadSpan(b)) + b[|b| - 2..];
      assert p[..|p| - 2] == Unstuff(PayloadSpan(b));
    } else {
      assert p == b;
    }
  }

  /** The length field is never used: in a frame long enough for the footer
      not to reach bytes 5 and 6, rewriting those two bytes changes neither
      the outcome nor any metadata. The handed-on buffer carries the new
      bytes only when nothing was dropped, since otherwise the header is
      discarded. */
  lemma LengthFieldUnused(b: seq<Byte>, lo: Byte, hi: Byte, g: ParserGenerator)
    requires |b| >= 9
    ensures var c := b[..5] + [lo, hi] + b[7..];
      var o := GetPacketFromBuffer(b, g);
      var o' := GetPacketFromBuffer(c, g);
      o'.generator == o.generator &&
      (o.result.Failure? ==> o'.result == o.result) &&
      (o.result.Success? ==>
        o'.result.Success? &&
        o'.result.value == o.result.value.(buffer := o'.result.value.buffer) &&
        o'.result.value.buffer == if Completions(0, PayloadSpan(b)) > 0 then o.result.value.buffer else c)
  {
    var c := b[..5] + [lo, hi] + b[7..];
    assert |c| == |b| && c[4] == b[4] && c[7] == b[7];
    assert c[|c| - 2] == b[|b| - 2] && c[|c| - 1] == b[|b| - 1];
    assert c[|c| - 2..] == b[|b| - 2..];
    assert PayloadSpan(c) == PayloadSpan(b);
    ResolveCarriesCrc(b[4], b[7], LE16(b[|b| - 2], b[|b| - 1]), LE16(c[|c| - 2], c[|c| - 1]),
                      PassedBuffer(b), PassedBuffer(c), g);
  }
}
