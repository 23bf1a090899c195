/** What the assembler, the frame detector, the disassembler and the
    parser/generator state promise each other: a built frame is recognised
    and ends where its length field says, decodes to the definition it was
    built from, and, once sent, gives a later status reply its meaning. */
module RoundTrip {
  import opened Bytes
  import opened Stuffing
  import opened Registry
  import opened ParserState
  import opened Detector
  import opened Assembler
  import opened Disassembler

  /** A built frame opens with the preamble the start test accepts, and the
      completion test fires at its last byte and at no earlier one. */
  lemma BuiltFrameIsDetected(id: int, instruction: Byte, payload: seq<Byte>)
    requires PrepareBuffer(id, instruction, payload).Success?
    ensures var f := PrepareBuffer(id, instruction, payload).value.buffer;
      (forall k :: 0 <= k < 3 ==> TestPacketStart(f[..k], f[k]) != Idle) &&
      CompleteAfter(f, |f| - 1) == Complete &&
      (forall k :: 6 <= k < |f| - 1 ==> CompleteAfter(f, k) == InProgress)
  {
    WellFormedFrameIsDetected(PrepareBuffer(id, instruction, payload).value.buffer);
  }

  /** The stuffed span of a built frame is where the disassembler looks for it. */
  lemma SpanOfBuiltFrame(id: int, instruction: Byte, payload: seq<Byte>)
    requires PrepareBuffer(id, instruction, payload).Success?
    ensures var f := PrepareBuffer(id, instruction, payload).value.buffer;
      PayloadSpan(f) == Stuff(payload)
  {
  }

  /** Decoding a built instruction frame finds the definition of its opcode,
      the id, the opcode and the CRC it was built with, and leaves the
      parser/generator as sending it would. The unstuffed span is the payload
      exactly when the payload does not trip the seeded stuffing window; the
      buffer the packet carries is a separate matter, since it loses the
      header whenever a byte is dropped. */
  lemma DecodeBuiltInstruction(id: int, instruction: Byte, payload: seq<Byte>, g: ParserGenerator)
    requires Lookup(instruction).Some?
    requires PrepareBuffer(id, instruction, payload).Success?
    ensures var built := PrepareBuffer(id, instruction, payload).value;
      var f := built.buffer;
      var o := GetPacketFromBuffer(f, g);
      o.result.Success? &&
      o.result.value.ptype == Instruction &&
      Some(o.result.value.definition) == Lookup(instruction) &&
      o.result.value.id as int == id && o.result.value.instruction == instruction &&
      o.result.value.crc == built.crc as int &&
      o.generator == OnTxPacket(g, f) &&
      (Unstuff(PayloadSpan(f)) == payload <==> !BreaksRoundTrip(payload))
  {
    NoDefinitionIsStatus();
    var built := PrepareBuffer(id, instruction, payload).value;
    var f := built.buffer;
    assert LE16(f[|f| - 2], f[|f| - 1]) == built.crc as int by {
      assert f[|f| - 2..][0] == f[|f| - 2] && f[|f| - 2..][1] == f[|f| - 1];
    }
    SpanOfBuiltFrame(id, instruction, payload);
    SourceRoundTripIff(payload);
  }

  /** For a payload that is empty or does not start with `FF`, the buffer
      handed on is the frame itself when nothing was stuffed, and otherwise the
      payload followed by the CRC bytes: the header is gone. */
  lemma BuiltInstructionBuffer(id: int, instruction: Byte, payload: seq<Byte>, g: ParserGenerator)
    requires payload == [] || payload[0] != 0xFF
    requires Lookup(instruction).Some?
    requires PrepareBuffer(id, instruction, payload).Success?
    ensures var f := PrepareBuffer(id, instruction, payload).value.buffer;
      var o := GetPacketFromBuffer(f, g);
      o.result.Success? &&
      o.result.value.buffer == if Completions(1, payload) > 0 then payload + f[|f| - 2..] else f
  {
    DecodeBuiltInstruction(id, instruction, payload, g);
    SpanOfBuiltFrame(id, instruction, payload);
    SourceRoundTrip(payload);
    SourceCompletionsAgree(payload);
  }

  /** The correlation: after sending a frame, any status frame decodes with
      the definition of the frame's opcode, named `"stat_"` plus its name, and
      fails exactly when that opcode has no definition. */
  lemma StatusAnswersLastTransmit(g: ParserGenerator, sent: seq<Byte>, status: seq<Byte>)
    requires |sent| >= 8
    requires |status| >= 8 && status[7] == StatusOpcode
    ensures var o := GetPacketFromBuffer(status, OnTxPacket(g, sent));
      (o.result.Success? <==> Lookup(sent[7]).Some?) &&
      (o.result.Success? ==>
        o.result.value.ptype == Status &&
        Some(o.result.value.definition) == Lookup(sent[7]) &&
        o.result.value.name == "stat_" + Lookup(sent[7]).value.name) &&
      o.generator == OnTxPacket(g, sent)
  {
  }

  /** A packet made by name as `"stat_..."` carries its definition's opcode in
      the instruction byte, never 0x55, so the frame built from it decodes as
      an instruction packet `"inst_..."`, not as the status packet it was made
      as. */
  lemma NamedStatusIsSentAsInstruction(name: string, id: int, payload: seq<Byte>, g: ParserGenerator)
    requires GetPacketFromNameAndArgs(name, Some(id)).Success?
    requires GetPacketFromNameAndArgs(name, Some(id)).value.ptype == Status
    requires PrepareBuffer(id, GetPacketFromNameAndArgs(name, Some(id)).value.opcode, payload).Success?
    ensures var r := GetPacketFromNameAndArgs(name, Some(id)).value;
      var o := GetPacketFromBuffer(PrepareBuffer(id, r.opcode, payload).value.buffer, g);
      r.opcode != StatusOpcode &&
      o.result.Success? && o.result.value.ptype == Instruction &&
      o.result.value.definition == r.definition &&
      o.result.value.name != r.name
  {
    var r := GetPacketFromNameAndArgs(name, Some(id)).value;
    DecodeBuiltInstruction(id, r.opcode, payload, g);
    NoDefinitionIsStatus();
    var o := GetPacketFromBuffer(PrepareBuffer(id, r.opcode, payload).value.buffer, g);
    assert o.result.value.name[..5] == "inst_";
    assert r.name[..5] == "stat_";
    assert o.result.value.name[0..5][0] != r.name[0..5][0];
  }

  /** A packet made by name as an instruction decodes back under the same
      name and definition. */
  lemma NamedInstructionRoundTrip(name: string, id: int, payload: seq<Byte>, g: ParserGenerator)
    requires GetPacketFromNameAndArgs(name, Some(id)).Success?
    requires GetPacketFromNameAndArgs(name, Some(id)).value.ptype == Instruction
    requires PrepareBuffer(id, GetPacketFromNameAndArgs(name, Some(id)).value.opcode, payload).Success?
    ensures var r := GetPacketFromNameAndArgs(name, Some(id)).value;
      var o := GetPacketFromBuffer(PrepareBuffer(id, r.opcode, payload).value.buffer, g);
      o.result.Success? && o.result.value.ptype == Instruction &&
      o.result.value.definition == r.definition &&
      o.result.value.name == r.name &&
      o.result.value.instruction == r.opcode
  {
    var r := GetPacketFromNameAndArgs(name, Some(id)).value;
    var f := PrepareBuffer(id, r.opcode, payload).value.buffer;
    DecodeBuiltInstruction(id, r.opcode, payload, g);
    var d := GetPacketFromBuffer(f, g).result.value;
    assert Some(d.definition) == Some(r.definition);
    assert HasPrefix(r.name, "inst_");
    PrefixRestored(r.name, "inst_");
  }

  /** A name that starts with a prefix is that prefix followed by the rest. */
  lemma PrefixRestored(n: string, p: string)
    requires HasPrefix(n, p)
    ensures p + n[|p|..] == n
  {
    assert n == n[..|p|] + n[|p|..];
  }
}
