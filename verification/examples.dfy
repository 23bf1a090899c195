/** The status frame of the emulated-servo example: a ping reply from servo 1
    with error 0, model number 1030 and firmware version 38, received after
    a ping instruction was sent. */
module Examples {
  import opened Bytes
  import opened Fields
  import opened Crc16
  import opened Stuffing
  import opened Registry
  import opened ParserState
  import opened Detector
  import opened Disassembler

  /** `FF FF FD 00 01 07 00 55 00 06 04 26 65 5D`. */
  const PingReply: seq<Byte> :=
    [0xFF, 0xFF, 0xFD, 0x00, 0x01, 0x07, 0x00, 0x55, 0x00, 0x06, 0x04, 0x26, 0x65, 0x5D]

  /** The parser/generator after sending a ping. */
  const AfterPing: ParserGenerator := ParserGenerator(Some(0x01))

  /** The detector takes the three start bytes and completes the frame at
      its fourteenth byte, as the length field `07 00` declares. */
  lemma PingReplyIsOneFrame()
    ensures forall k :: 0 <= k < 3 ==> TestPacketStart(PingReply[..k], PingReply[k]) != Idle
    ensures CompleteAfter(PingReply, 13) == Complete
    ensures forall k :: 6 <= k < 13 ==> CompleteAfter(PingReply, k) == InProgress
  {
    assert PingReply[..3] == Preamble;
    StartAcceptsOnlyPreamble(PingReply[..3]);
    forall k | 0 <= k < 3
      ensures TestPacketStart(PingReply[..k], PingReply[k]) != Idle
    {
      assert PingReply[..3][k] == PingReply[k];
      StartDependsOnlyOnLength(PingReply[..k], PingReply[..3][..k], PingReply[k]);
    }
    assert LE16(PingReply[5], PingReply[6]) == 7;
    CompletesExactlyAtEnd(PingReply);
  }

  /** After a ping the frame decodes as `stat_ping` from servo 1, with the
      frame handed on unchanged (nothing to unstuff) and the footer read as
      0x5D65, which is indeed the CRC of the bytes before it. */
  lemma PingReplyDecodes()
    ensures var o := GetPacketFromBuffer(PingReply, AfterPing);
      o.result.Success? &&
      o.result.value.ptype == Status &&
      o.result.value.name == "stat_ping" &&
      Some(o.result.value.definition) == Lookup(0x01) &&
      o.result.value.id == 0x01 &&
      o.result.value.crc == 0x5D65 &&
      o.result.value.buffer == PingReply &&
      o.generator == AfterPing
    ensures UpdateCrc(0, PingReply[..12]) == 0x5D65
  {
    assert Lookup(0x01) == Some(InstructionAt(0).definition);
    var span := PayloadSpan(PingReply);
    assert span == [0x00, 0x06, 0x04, 0x26];
    NoFdNoCompletion(0, span);
    assert "stat_" + "ping" == "stat_ping";
    PingReplyCrc(PingReply[..12]);
  }

  /** The parameters unpack under ping's reply layout into error 0, model
      number 0x0406 and firmware version 0x26. */
  lemma PingReplyParameters()
    ensures Unpack(ArgTypes(InstructionAt(0).definition.incoming), PingReply[8..12]) ==
      Some([Number(0), Number(0x0406), Number(0x26)])
  {
    var ts := ArgTypes(InstructionAt(0).definition.incoming);
    assert ts == [UInt8, UInt16, UInt8];
    var p := PingReply[8..12];
    assert p == [0x00, 0x06, 0x04, 0x26];
    var model: seq<Byte> := [0x06, 0x04];
    var firmware: seq<Byte> := [0x26];
    var error: seq<Byte> := [0x00];
    assert DecodeField(UInt8, firmware) == Number(0x26) by {
      assert firmware[1..] == [];
    }
    assert DecodeField(UInt16, model) == Number(0x0406) by {
      assert model[1..] == [0x04] && model[1..][1..] == [];
    }
    assert DecodeField(UInt8, error) == Number(0) by {
      assert error[1..] == [];
    }
    var last: seq<FieldType> := [UInt8];
    assert Unpack(last, firmware) == Some([Number(0x26)]) by {
      assert last[1..] == [] && firmware[..1] == firmware && firmware[1..] == [];
      assert Width(UInt8) == Some(1);
      assert Unpack(last[1..], firmware[1..]) == Some([]);
      assert [Number(0x26)] + [] == [Number(0x26)];
    }
    var rest: seq<FieldType> := [UInt16, UInt8];
    assert Unpack(rest, p[1..]) == Some([Number(0x0406), Number(0x26)]) by {
      assert p[1..][..2] == model && p[1..][2..] == firmware && rest[1..] == last;
      assert Width(UInt16) == Some(2);
      assert [Number(0x0406)] + [Number(0x26)] == [Number(0x0406), Number(0x26)];
    }
    assert p[..1] == error && ts[1..] == rest;
    assert Width(UInt8) == Some(1);
    assert [Number(0)] + [Number(0x0406), Number(0x26)] == [Number(0), Number(0x0406), Number(0x26)];
  }
}
