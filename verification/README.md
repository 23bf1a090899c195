# Dynamixel Protocol 2.0 codec and X-series control table, in Dafny

This project models the frame codec of perilib's ROBOTIS Dynamixel 2.0
driver and the X-series register map, and proves properties of the model.
The modules follow the source's structure:

- `Bytes`: bytes, `Option`/`Result`, and little-endian 16-bit fields.
- `CrcPolynomial`: the CRC-16 register, polynomial 0x8005, most significant bit first.
- `Crc16`: the protocol class's `crc_table` and the packet class's `update_crc`.
- `Stuffing`: the shared `FF FF FD` window, plus the stuffing and unstuffing loops.
- `Fields`: the argument types and the little-endian value codec they describe.
- `Registry`: `header_args`, `footer_args`, the `instructions` dictionary and `get_packet_from_name_and_args`.
- `ParserState`: the parser/generator's `last_instruction` cell.
- `Detector`: `test_packet_start` and `test_packet_complete`.
- `Assembler`: `prepare_buffer_after_building`.
- `Disassembler`: `get_packet_from_buffer`.
- `ControlTable`: the generic `ControlTable`.
- `ControlTableX`: the X-series map.
- `RoundTrip`: how assembly, detection, decoding and the cell fit together.
- `Examples`: the ping reply of the emulated-servo example.

The model follows the code where it departs from the protocol. Each departure is stated as a lemma:

- **The stuffing windows start differently.**
  - The stuffer starts with one slot already filled (`seen = [instruction]`). The unstuffer starts empty.
  - So the round trip holds exactly for payloads that do not open with a run of `FF` whose length is not a multiple of three, followed by `FD` (`Stuffing.SourceRoundTripIff`).
  - `FF FD` is stuffed, and `FF FF FD` is not (`Stuffing.SeededWindowStuffsFfFd`, `Stuffing.SeededWindowMissesFfFfFd`).
  - With both windows starting empty, the round trip holds for every payload (`Stuffing.ProtocolRoundTrip`).
- **Unstuffing loses the header.** When a byte is dropped, the buffer handed on is the unstuffed parameters plus the two CRC bytes, without the eight header bytes (`Disassembler.PassedBuffer`, carried into the packet by `Disassembler.GetPacketFromBuffer`).
- **The CRC is read but never checked** (`Disassembler.CrcNeverChecked`). **The length field is read but never used** (`Disassembler.LengthFieldUnused`).
- **Opcode 0x93 is declared under the name `sync_write`.** The name lookup stops at the first match, 0x83, so no name reaches 0x93 (`Registry.NoNameReachesBulkWrite`).
- **A packet made by name as `stat_...` is still built as an instruction frame.** It carries its definition's opcode, not 0x55, so it decodes as an `inst_...` packet (`RoundTrip.NamedStatusIsSentAsInstruction`).
- **A decoding failure reports the cell, not the frame.** The message for a missing definition formats the parser/generator's `last_instruction`, whatever the frame's own opcode. When the cell is `None`, formatting itself raises; the model still reports a failure.
- **The "No known previous instruction" branch cannot be reached.**
  - The constructor always creates the cell, so `"last_instruction" in __dict__` always holds.
  - A status frame that arrives before anything was sent fails on the lookup of `None` instead (`Disassembler.StatusBeforeTransmitFails`).
- **The X-series field list has sixty entries.**

Field packing and unpacking belong to the perilib base classes, which are not part of this model. The model takes them to be the plain little-endian codec the type names describe:

- fixed-width integers, low byte first;
- signed integers in two's complement;
- a fixed array of its declared width;
- a greedy array that takes the rest of the payload.

## Model

| member | source | states |
|---|---|---|
| Bytes.ToLE16 | RobotisDynamixel2Packet.py:48 | `struct.pack("<H")` gives two bytes that read back, low byte first, as the number packed |
| Bytes.LE16 | RobotisDynamixel2Protocol.py:199-200 | `struct.unpack("<H")` reads a number below 65536 whose low byte is the first byte and whose high byte is the second, so the pair can be recovered from the number |
| Crc16.UpdateCrcLoop | RobotisDynamixel2Packet.py:50-54 | the byte loop of `update_crc` computes the left fold of the table step over the data; on empty data it returns the seed |
| Crc16.UpdateCrcAppend | RobotisDynamixel2Packet.py:50-54 | `update_crc` over `a + b` equals `update_crc` over `b` seeded with the CRC of `a` |
| Crc16.UpdateCrc | RobotisDynamixel2Packet.py:50-54 | `update_crc` processes the data in order: the CRC of a non-empty block is one table step, on its last byte, after the CRC of the block without that byte |
| Crc16.TableIsPolynomial | RobotisDynamixel2Protocol.py:10-43 | every one of the 256 `crc_table` entries equals eight MSB-first shift/xor steps of its index under polynomial 0x8005 |
| Crc16.PingReplyCrc | examples/dynamixel_emulated.py:32 | the CRC of `FF FF FD 00 01 07 00 55 00 06 04 26` from seed 0 is 0x5D65, the frame's trailing `65 5D` |
| Stuffing.Stuff | RobotisDynamixel2Packet.py:18-32 | stuffing from the window seeded with the instruction adds one `FD` per completion, each right after an `FD` of the input, and is the identity when nothing completes |
| Stuffing.Unstuff | RobotisDynamixel2Protocol.py:204-222 | unstuffing from an empty window removes one byte per completion, and is the identity when nothing completes |
| Stuffing.StuffPayload | RobotisDynamixel2Packet.py:16-36 | the stuffing loop, window seeded with the instruction, yields the stuffed payload; it flags stuffing exactly when some byte completed `FF FF FD`; its output is one byte longer per completion and is the input with `FD` bytes inserted, each right after an input `FD` |
| Stuffing.UnstuffPayload | RobotisDynamixel2Protocol.py:202-230 | the unstuffing loop, window empty, drops exactly the `FD` bytes that complete `FF FF FD`; it flags unstuffing exactly when one was dropped; its output is one byte shorter per drop |
| Stuffing.StuffIsFdInsertion | RobotisDynamixel2Packet.py:19-32 | stuffing from any window only inserts `FD` bytes, each right after an `FD` of the input |
| Stuffing.NoCompletionStuffIdentity | RobotisDynamixel2Packet.py:34-36 | when no byte completes the pattern, the stuffed list equals the input, so keeping the original buffer changes nothing |
| Stuffing.NoFdUnchanged | RobotisDynamixel2Protocol.py:206-222 | a payload without `FD` passes through stuffing and unstuffing unchanged |
| Stuffing.UnstuffStuffFrom | RobotisDynamixel2Protocol.py:206-222 | unstuffing from a window undoes stuffing from the same window, for every payload |
| Stuffing.ProtocolRoundTrip | RobotisDynamixel2Packet.py:18-32 | with both windows starting empty, as the protocol intends, unstuffing undoes stuffing for every payload |
| Stuffing.RoundTripIffAgree | RobotisDynamixel2Protocol.py:205-219 | stuffing from `w` and then unstuffing from `u` restores a payload if and only if the two scans make the same stuff/drop decision on every byte |
| Stuffing.SourceRoundTripIff | RobotisDynamixel2Packet.py:18 | the source's pair (seeded stuffer, empty unstuffer) restores a payload if and only if the payload does not open with a run of `FF` of length not divisible by three followed by `FD` |
| Stuffing.SourceRoundTrip | RobotisDynamixel2Protocol.py:205 | the source's round trip holds for the empty payload and every payload whose first byte is not `FF` |
| Stuffing.StuffedCompletions | RobotisDynamixel2Protocol.py:212-215 | unstuffing sees as many completions in stuffed bytes as the stuffer saw in the payload, when both scan from the same window |
| Stuffing.SourceCompletionsAgree | RobotisDynamixel2Protocol.py:229-230 | for a payload that is empty or does not start with `FF`, the receiver replaces its buffer exactly when the sender stuffed |
| Stuffing.SeededWindowStuffsFfFd | RobotisDynamixel2Packet.py:18 | the seeded stuffer turns `FF FD` into `FF FD FD`, which the protocol leaves alone, and the round trip loses it |
| Stuffing.SeededWindowMissesFfFfFd | RobotisDynamixel2Packet.py:18 | the seeded stuffer leaves `FF FF FD` as it is, which the protocol stuffs, and the receiver then drops its `FD` |
| Fields.UnpackFixedLength | control_table.py:37-38 | a list of fixed-width fields unpacks exactly when the buffer is as long as their widths together, into one value per field |
| Fields.UnpackFixedAt | control_table.py:37-38 | field `k` of an unpacked fixed-width list is decoded from the bytes starting at the sum of the widths before it |
| Fields.FieldRoundTrip | control_table.py:51-112 | for each field type, a value that fits decodes back from its encoding (little-endian, two's complement for the signed types) |
| Fields.FieldBytesRoundTrip | control_table.py:51-112 | for each fixed-width type, the bytes of a field encode back from the value they decode to |
| Fields.UnpackPack | RobotisDynamixel2Protocol.py:62-174 | unpacking the packed values of an argument list whose greedy array, if any, comes last gives the values back |
| Fields.PackUnpack | RobotisDynamixel2Protocol.py:62-174 | packing the values unpacked from a payload gives the payload back |
| Registry.GetPacketFromNameAndArgs | RobotisDynamixel2Protocol.py:263-299 | a packet made by name carries the normalised name, type STATUS exactly for a `stat_` prefix, the given id, no CRC, and a definition whose name is the part after the prefix and which its opcode looks up; an unknown name fails naming the normalised name |
| Registry.NormalizeName | RobotisDynamixel2Protocol.py:266-267 | the normalised name has an `inst_` or `stat_` prefix and ends with the given name; it is the given name exactly when that is at least six characters long and already prefixed, and otherwise `inst_` followed by it |
| Registry.NormalizeIdempotent | RobotisDynamixel2Protocol.py:266-267 | normalising is idempotent on every non-empty name; the empty name becomes `inst_`, which is too short to count as prefixed, and then `inst_inst_` |
| Registry.NameLookupIsFirstMatch | RobotisDynamixel2Protocol.py:279-299 | lookup by name succeeds if and only if some entry has that name, and then it returns the first such entry in table order |
| Registry.InstructionAt | RobotisDynamixel2Protocol.py:62-174 | no entry of `instructions` uses the status opcode 0x55, and in each entry's outgoing and incoming lists a `uint8a-greedy` argument comes last |
| Registry.Lookup | RobotisDynamixel2Protocol.py:243-251 | `instructions[op]` finds a definition exactly when some entry has the opcode `op`, and what it finds is that entry's definition; otherwise the `KeyError` path |
| Registry.LookupFindsEntry | RobotisDynamixel2Protocol.py:62-174 | looking up any entry's opcode finds that entry's definition |
| Registry.OpcodesDistinct | RobotisDynamixel2Protocol.py:62-174 | the twelve opcodes of the table are pairwise distinct |
| Registry.NoDefinitionIsStatus | RobotisDynamixel2Protocol.py:233 | no entry uses the status opcode 0x55, so looking it up finds nothing |
| Registry.GreedyArgsLast | RobotisDynamixel2Protocol.py:62-174 | in every outgoing and incoming argument list, a `uint8a-greedy` argument is the last one |
| Registry.HeaderWidth | RobotisDynamixel2Protocol.py:45-53 | the header arguments are all fixed-width and take eight bytes |
| Registry.FooterWidth | RobotisDynamixel2Protocol.py:55-57 | the footer argument is fixed-width and takes two bytes |
| Registry.BulkWriteOpcodeNamedSyncWrite | RobotisDynamixel2Protocol.py:167-173 | the definition under opcode 0x93 is named `sync_write` |
| Registry.SyncWriteNameFindsFirst | RobotisDynamixel2Protocol.py:280-284 | the name `sync_write` finds opcode 0x83 |
| Registry.NoNameReachesBulkWrite | RobotisDynamixel2Protocol.py:280-296 | no name at all yields opcode 0x93 |
| Registry.BulkWriteNameUnknown | RobotisDynamixel2Protocol.py:299 | the name `bulk_write` fails as unknown, reported as `inst_bulk_write` |
| ParserState.OnTxPacket | RobotisDynamixel2ParserGenerator.py:12-14 | after a transmit, the cell holds byte 7 of the sent buffer |
| Detector.TestPacketStart | RobotisDynamixel2Protocol.py:176-181 | STARTING if and only if the byte is `FF` and at most one byte is buffered; IN_PROGRESS if and only if the byte is `FD` and two bytes are buffered; never COMPLETE |
| Detector.StartAcceptsOnlyPreamble | RobotisDynamixel2Protocol.py:177-181 | three bytes in a row pass the start test if and only if they are `FF FF FD` |
| Detector.StartDependsOnlyOnLength | RobotisDynamixel2Protocol.py:177-181 | the start test reads the buffer's length, never its contents |
| Detector.TestPacketComplete | RobotisDynamixel2Protocol.py:183-195 | COMPLETE if and only if buffer plus byte has at least seven bytes and is exactly the little-endian length at offsets 5-6 plus seven; IN_PROGRESS otherwise |
| Detector.CompletesExactlyAtEnd | RobotisDynamixel2Protocol.py:187-192 | along the prefixes of a frame whose length field is right, the completion test fires at the last byte and at no earlier byte from the seventh on |
| Detector.WellFormedFrameIsDetected | RobotisDynamixel2Protocol.py:176-195 | any byte string opening with `FF FF FD 00` whose length field is right passes the start test on its first three bytes and completes exactly at its last byte |
| Detector.CompletesAtMostOnce | RobotisDynamixel2Protocol.py:187-192 | along one byte stream, the completion test fires at most once from the seventh byte on |
| Assembler.Header | RobotisDynamixel2Packet.py:39-41 | the packed header is `FF FF FD 00`, then the id, the little-endian length, and the instruction |
| Assembler.PrepareBuffer | RobotisDynamixel2Packet.py:14-48 | assembly succeeds if and only if the id fits a byte and the stuffed length plus 3 fits 16 bits. The frame is then the header, the stuffed payload and a footer. Its length field plus seven is its total length. The footer is the little-endian CRC of everything before it, and the metadata CRC holds the same value |
| Assembler.PrepareBufferLoop | RobotisDynamixel2Packet.py:14-48 | the method with its stuffing and CRC loops yields the same result as the functional definition |
| Assembler.StuffIfNeeded | RobotisDynamixel2Packet.py:16-36 | whether or not the buffer is replaced, the payload ends up stuffed |
| Assembler.PayloadVerbatim | RobotisDynamixel2Packet.py:16-36 | a payload without `FD` appears in the frame unchanged |
| Disassembler.PayloadSpan | RobotisDynamixel2Protocol.py:206 | `buffer[8:-2]` is the bytes between header and footer, empty for frames shorter than ten bytes |
| Disassembler.PassedBuffer | RobotisDynamixel2Protocol.py:224-230 | the buffer handed on ends with the frame's two CRC bytes, which are never unstuffed, and equals the frame exactly when nothing was dropped. After a drop it is the unstuffed span followed by the CRC bytes: the eight header bytes are lost, so it is eight bytes plus one per drop shorter than the frame |
| Disassembler.GetPacketFromBuffer | RobotisDynamixel2Protocol.py:197-261 | fails as truncated exactly below eight bytes. Otherwise the id comes from byte 4, the opcode from byte 7, and the CRC from the last two bytes. A frame other than 0x55 is an instruction: it is looked up by its own opcode and, on success, becomes `last_instruction`. A 0x55 frame is a status: it is looked up by the cell and leaves the cell alone. The name is `inst_` or `stat_` plus the definition's name. A failure leaves the cell unchanged, and a missing definition reports the cell's value. The packet's buffer is the handed-on buffer, without the header after a drop |
| Disassembler.Resolve | RobotisDynamixel2Protocol.py:232-251 | the packet carries the buffer and CRC it is given, and the only failure is a missing definition |
| Disassembler.ResolveCarriesCrc | RobotisDynamixel2Protocol.py:255-261 | the CRC and the buffer handed on influence neither success, nor the cell, nor any other part of the packet |
| Disassembler.StatusBeforeTransmitFails | RobotisDynamixel2Protocol.py:233-240 | a status frame decoded by a fresh parser/generator fails, reporting `None` |
| Disassembler.CrcNeverChecked | RobotisDynamixel2Protocol.py:200 | replacing the two CRC bytes of a frame of ten or more bytes changes only the `crc` metadata and the last two bytes handed on |
| Disassembler.LengthFieldUnused | RobotisDynamixel2Protocol.py:199-261 | rewriting the length bytes 5-6 of a frame of nine or more bytes changes neither success nor failure, nor the cell, nor any metadata; the packet's buffer shows the new bytes only when nothing was dropped |
| Disassembler.PassedBufferTakesCrc | RobotisDynamixel2Protocol.py:224-230 | replacing the CRC bytes leaves the stuffed span alone and replaces the last two bytes of the buffer handed on |
| ControlTable.GetFieldInfo | control_table.py:40-44 | a field is found if and only if some field has that name, and the one found has that name and is in the list |
| ControlTable.FieldInfoByName | control_table.py:40-44 | with distinct names, looking up a field's name returns that field |
| ControlTable.EmptyTable | control_table.py:12-16 | the table built without a buffer has exactly the field names as keys, each mapped to `None` |
| ControlTable.EmptyTableLoop | control_table.py:13-16 | the constructor's loop builds that table, with one key per field when names are distinct |
| ControlTable.Populate | control_table.py:37-38 | filling from a buffer succeeds for fixed-width fields exactly when the buffer is as long as the fields together; the filled table has the same keys as the empty one, and every value is set |
| ControlTable.PopulateNeedsSize | control_table.py:37-38 | a map whose fields tile `size` bytes fills exactly from buffers of `size` bytes |
| ControlTable.PopulateDecodesAtAddress | control_table.py:37-38 | in a map whose fields have distinct names and tile `size` bytes, each field holds the value decoded from the bytes at its address |
| ControlTable.PopulateInjective | control_table.py:37-38 | with distinct names, two buffers that fill the same table are equal |
| ControlTable.New | control_table.py:8-16 | without a buffer the constructor gives the empty table; with one it fills from it, succeeding exactly for the right length |
| ControlTable.ContiguousIsPacked | control_table.py:37-38 | if each field ends where the next starts, the first at 0 and the last at `size`, then the declared addresses are the offsets at which declaration-order unpacking reads each field |
| ControlTable.Describe | control_table.py:27-35 | the text form renders if and only if every field whose name has no `___` is in the table with `None` or a number. Every line belongs to such a field and shows its value, and every such field has its line |
| ControlTable.DescribeEmpty | control_table.py:27-35 | the empty table renders, and every line shows `None` |
| ControlTable.DescribePopulated | control_table.py:27-35 | a filled table renders when every shown field is a number field, and every line shows a number |
| ControlTableX.FieldAt | control_table.py:51-112 | every entry of `fields` has a fixed width, ends within `size` = 147 bytes, and is EEPROM exactly when its address is below 64 |
| ControlTableX.RowFactsAt | control_table.py:51-112 | for each of the sixty entries: its name identifies it; it is hidden exactly when it is a byte array; it is EEPROM exactly below address 64; it has a fixed width; it ends where the next entry starts, the last at 147 |
| ControlTableX.FieldsContiguous | control_table.py:48-113 | the first field starts at 0, each ends where the next starts, and `present_temperature` ends at `size` = 147 |
| ControlTableX.FieldsTileSize | control_table.py:48-113 | the X-series fields tile 147 bytes, each at its declared address |
| ControlTableX.EepromBelow64 | control_table.py:51-112 | the `eeprom` flag is set exactly on the fields whose address is below 64 |
| ControlTableX.NamesUnique | control_table.py:51-112 | no two fields share a name |
| ControlTableX.HiddenExactlyArrays | control_table.py:51-112 | a field's name contains `___` exactly when the field is a byte array |
| ControlTableX.Layout | control_table.py:48-113 | the X-series map has distinct names and tiles `size` bytes |
| ControlTableX.FieldInfoOfEachField | control_table.py:40-44 | every X-series field is found under its own name |
| ControlTableX.ReadTable | control_table.py:37-38 | an X-series table fills from a buffer exactly when the buffer is 147 bytes long |
| ControlTableX.ReadTableField | control_table.py:37-38 | in an X-series table read from 147 bytes, every field holds the value decoded from the bytes at its address |
| ControlTableX.ReadTableRenders | control_table.py:27-35 | the text form of an X-series table read from 147 bytes renders, and every line shows a number |
| RoundTrip.BuiltFrameIsDetected | RobotisDynamixel2Packet.py:38-48 | a built frame passes the start test on its first three bytes, and the completion test fires at its last byte and at no earlier one |
| RoundTrip.SpanOfBuiltFrame | RobotisDynamixel2Protocol.py:206 | the span the decoder unstuffs is exactly the stuffed payload the assembler wrote |
| RoundTrip.DecodeBuiltInstruction | RobotisDynamixel2Protocol.py:197-261 | a built instruction frame decodes to its opcode's definition, id, opcode and CRC, and updates the cell. The unstuffed span equals the payload exactly when the payload does not break the round trip. Whenever a byte is dropped, the handed-on buffer has lost its header (`Disassembler.PassedBuffer`), so the parameters are no longer where the header layout expects them |
| RoundTrip.BuiltInstructionBuffer | RobotisDynamixel2Protocol.py:224-230 | for a payload that is empty or does not start with `FF`, the decoder hands on the frame itself when nothing was stuffed, and otherwise the payload followed by the CRC bytes |
| RoundTrip.StatusAnswersLastTransmit | RobotisDynamixel2Protocol.py:233-237 | after sending a frame, a status frame decodes with the definition of the sent opcode, named `stat_` plus its name, and fails exactly when that opcode has no definition |
| RoundTrip.NamedStatusIsSentAsInstruction | RobotisDynamixel2Protocol.py:272-296 | a packet made by name as `stat_...` carries its definition's opcode, never 0x55, so its frame decodes as an instruction under a different name |
| RoundTrip.NamedInstructionRoundTrip | RobotisDynamixel2Protocol.py:263-296 | a packet made by name as an instruction decodes back with the same name, definition and opcode |
| Examples.PingReplyIsOneFrame | examples/dynamixel_emulated.py:32 | the 14-byte example passes the start test and completes at its fourteenth byte, not before |
| Examples.PingReplyDecodes | examples/dynamixel_emulated.py:29-32 | with `last_instruction` = 0x01, the example decodes as `stat_ping` from id 1 with CRC 0x5D65, which is the CRC of the bytes before it |
| Examples.PingReplyParameters | RobotisDynamixel2Protocol.py:66-70 | the example's parameters `00 06 04 26` unpack under ping's reply layout into error 0, model number 0x0406 and firmware version 0x26 |

## Left out

- The perilib base classes are not part of this model: `StreamProtocol`, `StreamPacket`, `StreamParserGenerator`, and the driver loop that feeds bytes to the two tests. Their `pack_values`/`unpack_values` are stood in for by the little-endian codec of `Fields`, which is an assumption.
- Timeouts and waiting (`incoming_packet_timeout`, `response_packet_timeout`), the servo and device classes, and all serial I/O are timing and I/O.
- The in-place writes of `response_required`, `header_args` and `footer_args` into the shared instruction dictionaries are left out, because they do not affect any returned value the model covers.
- `__getitem__` and `__getattr__` of the control table are plain dictionary reads.
- The `%22s`/`%d` padding and the newline join of `__str__` are left out. The model keeps the list of lines, each with a name and a value.
- `ControlTablePro` has no fields.
- `Crc16.TableIsPolynomial`: the table is proved equal to the polynomial entry by entry. The model does not also prove that the byte-wise table update equals the bit-serial CRC over whole messages.
- `Disassembler.GetPacketFromBuffer`: the `parser_generator=None` default is left out, because the parser always passes itself.
- `Disassembler.CrcNeverChecked`: stated for frames of ten bytes or more. In shorter frames the footer overlaps the header, so the CRC bytes are also the id or opcode.
- `Disassembler.LengthFieldUnused`: stated for frames of nine bytes or more. In an eight-byte frame the footer is bytes 6-7, so byte 6 is also part of the CRC.
- The `writable` flag is stored but never enforced, as in the source.
