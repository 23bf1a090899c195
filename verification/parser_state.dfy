/** The state the Dynamixel parser/generator adds to the generic one: the
    opcode of the last instruction it sent, which is the only way to tell what
    a status reply answers (a status frame carries 0x55, not the opcode it
    replies to). */
module ParserState {
  import opened Bytes

  /** `RobotisDynamixel2ParserGenerator`, reduced to `last_instruction`. */
  datatype ParserGenerator = ParserGenerator(lastInstruction: Option<Byte>)

  /** A freshly constructed parser/generator: nothing sent yet. */
  const Fresh: ParserGenerator := ParserGenerator(None)

  /** `_on_tx_packet(packet)`: remember the instruction byte, offset 7, of the
      frame being sent. The hook only sees built frames, which are at least ten
      bytes long. */
  function OnTxPacket(g: ParserGenerator, buffer: seq<Byte>): (g': ParserGenerator)
    requires |buffer| >= 8
    ensures g'.lastInstruction == Some(buffer[7])
  {
    ParserGenerator(Some(buffer[7]))
  }
}
