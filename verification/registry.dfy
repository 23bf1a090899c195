/** The instruction registry of the protocol class: the header and footer
    layouts, the table of instruction definitions in declaration order, and the
    lookup of a definition by packet name. */
module Registry {
  import opened Bytes
  import opened Fields

  /** One named argument of a definition. */
  datatype Arg = Arg(name: string, ftype: FieldType)

  /** An instruction definition: its name, the arguments it sends and the
      arguments of the status reply. */
  datatype Definition = Definition(name: string, outgoing: seq<Arg>, incoming: seq<Arg>)

  /** One key/value pair of the `instructions` dictionary. */
  datatype Entry = Entry(opcode: Byte, definition: Definition)

  /** The instruction byte that marks a status frame. */
  const StatusOpcode: Byte := 0x55

  /** `header_args`: three start bytes, the reserved byte, id, length, instruction. */
  function HeaderArgs(): seq<Arg>
  {
    [ Arg("sof1", UInt8), Arg("sof2", UInt8), Arg("sof3", UInt8), Arg("reserved", UInt8),
      Arg("packet_id", UInt8), Arg("packet_length", UInt16), Arg("instruction", UInt8) ]
  }

  /** `footer_args`: the CRC. */
  function FooterArgs(): seq<Arg>
  {
    [ Arg("crc", UInt16) ]
  }

  /** The field types of an argument list, in order (the counterpart, for
      definition arguments, of the control table's projection of its fields). */
  function ArgTypes(args: seq<Arg>): (ts: seq<FieldType>)
    ensures |ts| == |args|
    ensures forall i :: 0 <= i < |args| ==> ts[i] == args[i].ftype
  {
    seq(|args|, i requires 0 <= i < |args| => args[i].ftype)
  }

  /** The number of entries of `instructions`. */
  const InstructionCount: nat := 12

  /** Entry `i` of `instructions`, in the order the dictionary lists them.
      No entry uses the status opcode, and a greedy array argument, where
      there is one, is the last of its list. */
  function InstructionAt(i: nat): (e: Entry)
    requires i < InstructionCount
    ensures e.opcode != StatusOpcode
    ensures GreedyLast(ArgTypes(e.definition.outgoing)) && GreedyLast(ArgTypes(e.definition.incoming))
  {
    match i
    case 0 =>
      Entry(0x01, Definition("ping", [],
        [Arg("error", UInt8), Arg("model_number", UInt16), Arg("firmware_version", UInt8)]))
    case 1 =>
      Entry(0x02, Definition("read",
        [Arg("address", UInt16), Arg("length", UInt16)],
        [Arg("error", UInt8), Arg("data", UInt8aGreedy)]))
    case 2 =>
      Entry(0x03, Definition("write",
        [Arg("address", UInt16), Arg("data", UInt8aGreedy)],
        [Arg("error", UInt8)]))
    case 3 =>
      Entry(0x04, Definition("reg_write",
        [Arg("address", UInt16), Arg("data", UInt8aGreedy)],
        [Arg("error", UInt8)]))
    case 4 => Entry(0x05, Definition("action", [], [Arg("error", UInt8)]))
    case 5 => Entry(0x06, Definition("factory_reset", [Arg("type", UInt8)], [Arg("error", UInt8)]))
    case 6 => Entry(0x08, Definition("reboot", [], [Arg("error", UInt8)]))
    case 7 =>
      Entry(0x10, Definition("clear",
        [Arg("type", UInt8), Arg("code", UInt32)],
        [Arg("error", UInt8)]))
    case 8 =>
      Entry(0x82, Definition("sync_read",
        [Arg("address", UInt16), Arg("length", UInt16), Arg("id_list", UInt8aGreedy)],
        [Arg("error", UInt8), Arg("data", UInt8aGreedy)]))
    case 9 =>
      Entry(0x83, Definition("sync_write",
        [Arg("address", UInt16), Arg("length", UInt16), Arg("id_data_list", UInt8aGreedy)],
        []))
    case 10 =>
      Entry(0x92, Definition("bulk_read",
        [Arg("id_address_length_list", UInt8aGreedy)],
        [Arg("error", UInt8), Arg("data", UInt8aGreedy)]))
    case _ =>
      // The bulk-write opcode, declared under the name of sync_write.
      Entry(0x93, Definition("sync_write",
        [Arg("id_address_length_data_list", UInt8aGreedy)],
        []))
  }

  /** The first position from `k` on whose opcode is `op`, if any (a
      dictionary key lookup: the keys are distinct, so the first is the only
      one). */
  function IndexOfOpcode(op: Byte, k: nat): (r: Option<nat>)
    requires k <= InstructionCount
    ensures r.Some? ==> k <= r.value < InstructionCount && InstructionAt(r.value).opcode == op
    ensures r.Some? ==> forall j :: k <= j < r.value ==> InstructionAt(j).opcode != op
    ensures r.None? ==> forall j :: k <= j < InstructionCount ==> InstructionAt(j).opcode != op
    decreases InstructionCount - k
  {
    if k == InstructionCount then None
    else if InstructionAt(k).opcode == op then Some(k)
    else IndexOfOpcode(op, k + 1)
  }

  /** The first position from `k` on whose definition is named `name`. */
  function IndexOfName(name: string, k: nat): (r: Option<nat>)
    requires k <= InstructionCount
    ensures r.Some? ==> k <= r.value < InstructionCount && InstructionAt(r.value).definition.name == name
    ensures r.Some? ==> forall j :: k <= j < r.value ==> InstructionAt(j).definition.name != name
    ensures r.None? ==> forall j :: k <= j < InstructionCount ==> InstructionAt(j).definition.name != name
    decreases InstructionCount - k
  {
    if k == InstructionCount then None
    else if InstructionAt(k).definition.name == name then Some(k)
    else IndexOfName(name, k + 1)
  }

  /** `instructions[op]`: the definition stored under opcode `op`, or `None`
      where Python raises `KeyError`. */
  function Lookup(op: Byte): (r: Option<Definition>)
    ensures r.Some? <==> exists i :: 0 <= i < InstructionCount && InstructionAt(i).opcode == op
    ensures r.Some? ==> exists i :: 0 <= i < InstructionCount && InstructionAt(i) == Entry(op, r.value)
  {
    match IndexOfOpcode(op, 0)
    case None => None
    case Some(i) => Some(InstructionAt(i).definition)
  }

  /** `s` starts with `p`. */
  predicate HasPrefix(s: string, p: string)
  {
    |p| <= |s| && s[..|p|] == p
  }

  /** Prepend `"inst_"` unless the name is at least six characters long and
      already starts with `"inst_"` or `"stat_"`. */
  function NormalizeName(name: string): (n: string)
    ensures HasPrefix(n, "inst_") || HasPrefix(n, "stat_")
    ensures |n| >= |name| && n[|n| - |name|..] == name
    // A name is kept exactly when it is longer than its five-character
    // prefix; otherwise `"inst_"` is put in front.
    ensures n == name <==> |name| >= 6 && (HasPrefix(name, "inst_") || HasPrefix(name, "stat_"))
    ensures n != name ==> n == "inst_" + name
  {
    if |name| < 6 || (name[..5] != "inst_" && name[..5] != "stat_") then "inst_" + name else name
  }

  /** The two kinds of packet. */
  datatype PacketType = Instruction | Status

  /** The packet `get_packet_from_name_and_args` returns, without its argument
      values (those are handed to the base class for packing): its type, its
      normalised name, the definition found, and the metadata `id`,
      `instruction` (the opcode) and `crc` (`None` until built). */
  datatype Request = Request(ptype: PacketType, name: string, opcode: Byte, definition: Definition,
                             id: int, crc: Option<bv16>)

  /** Why a packet could not be made from a name. */
  datatype NameError = UnknownName(name: string) | MissingId

  /** `get_packet_from_name_and_args(name, id=...)`; `id` is `None` when the
      keyword argument is missing. */
  function GetPacketFromNameAndArgs(name: string, id: Option<int>): (r: Result<Request, NameError>)
    ensures r.Success? ==> r.value.name == NormalizeName(name) && r.value.crc == None
    ensures r.Success? ==> (r.value.ptype == Status <==> HasPrefix(NormalizeName(name), "stat_"))
    ensures r.Success? ==> id == Some(r.value.id)
    ensures r.Failure? && r.error.UnknownName? ==> r.error.name == NormalizeName(name)
    ensures r.Success? ==> Lookup(r.value.opcode) == Some(r.value.definition) &&
                           r.value.definition.name == NormalizeName(name)[5..]
  {
    var n := NormalizeName(name);
    var ptype := if HasPrefix(n, "inst_") then Instruction else Status;
    match IndexOfName(n[5..], 0)
    case None => Failure(UnknownName(n))
    case Some(i) =>
      var e := InstructionAt(i);
      LookupFindsEntry(i);
      if id.None? then Failure(MissingId)
      else Success(Request(ptype, n, e.opcode, e.definition, id.value, None))
  }

  /** Normalisation is idempotent on every non-empty name. The empty name is
      where idempotence stops: it becomes `"inst_"`, which is too short to
      count as prefixed, and then `"inst_inst_"`. */
  lemma NormalizeIdempotent(name: string)
    ensures name != [] ==> NormalizeName(NormalizeName(name)) == NormalizeName(name)
    ensures name == [] ==> NormalizeName(name) == "inst_" &&
                           NormalizeName(NormalizeName(name)) == "inst_inst_"
  {
    var n := NormalizeName(name);
    if name == [] {
      assert n == "inst_";
      assert "inst_" + n == "inst_inst_";
    } else if n != name {
      assert n == "inst_" + name;
      assert |n| >= 6;
      assert n[..5] == "inst_";
    }
  }

  /** The instruction found for a name is the table's first entry with that
      name, and a failure means no entry has it. */
  lemma NameLookupIsFirstMatch(name: string, id: int)
    ensures var r := GetPacketFromNameAndArgs(name, Some(id));
      var n := NormalizeName(name)[5..];
      (r.Success? <==> exists i :: 0 <= i < InstructionCount && InstructionAt(i).definition.name == n) &&
      (r.Success? ==> exists i :: 0 <= i < InstructionCount && InstructionAt(i) == Entry(r.value.opcode, r.value.definition) &&
                        InstructionAt(i).definition.name == n &&
                        forall j :: 0 <= j < i ==> InstructionAt(j).definition.name != n)
  {
    var n := NormalizeName(name)[5..];
    match IndexOfName(n, 0)
    case None =>
    case Some(i) =>
      assert InstructionAt(i).definition.name == n;
  }

  /** Looking up the opcode of any entry finds that entry's definition: the
      keys are distinct, so no earlier entry shadows it. */
  lemma LookupFindsEntry(i: nat)
    requires i < InstructionCount
    ensures Lookup(InstructionAt(i).opcode) == Some(InstructionAt(i).definition)
  {
    OpcodesDistinct();
    var op := InstructionAt(i).opcode;
    match IndexOfOpcode(op, 0)
    case None =>
    case Some(j) =>
      assert j == i;
  }

  /** No definition uses the status opcode 0x55. */
  lemma NoDefinitionIsStatus()
    ensures forall i :: 0 <= i < InstructionCount ==> InstructionAt(i).opcode != StatusOpcode
    ensures Lookup(StatusOpcode) == None
  {
  }

  /** The dictionary keys are distinct. */
  lemma OpcodesDistinct()
    ensures forall i, j :: 0 <= i < j < InstructionCount ==> InstructionAt(i).opcode != InstructionAt(j).opcode
  {
  }

  /** In every argument list a greedy array comes last, so it can take the rest
      of the payload. */
  lemma GreedyArgsLast()
    ensures forall i :: 0 <= i < InstructionCount ==>
      GreedyLast(ArgTypes(InstructionAt(i).definition.outgoing)) &&
      GreedyLast(ArgTypes(InstructionAt(i).definition.incoming))
  {
    forall i | 0 <= i < InstructionCount
      ensures GreedyLast(ArgTypes(InstructionAt(i).definition.outgoing)) &&
              GreedyLast(ArgTypes(InstructionAt(i).definition.incoming))
    {
      GreedyEntryArgsLast(i);
    }
  }

  /** The same for one entry of the table. */
  lemma GreedyEntryArgsLast(i: nat)
    requires i < InstructionCount
    ensures GreedyLast(ArgTypes(InstructionAt(i).definition.outgoing))
    ensures GreedyLast(ArgTypes(InstructionAt(i).definition.incoming))
  {
  }

  /** The header occupies eight bytes. */
  lemma HeaderWidth()
    ensures AllFixed(ArgTypes(HeaderArgs())) && TotalWidth(ArgTypes(HeaderArgs())) == 8
  {
    HeaderLayoutWidth(ArgTypes(HeaderArgs()));
  }

  /** Five one-byte fields, a two-byte one and another one-byte one take
      eight bytes. */
  lemma HeaderLayoutWidth(h: seq<FieldType>)
    requires |h| == 7 && h[5] == UInt16
    requires forall i :: 0 <= i < 7 && i != 5 ==> h[i] == UInt8
    ensures AllFixed(h) && TotalWidth(h) == 8
  {
    assert h[7..] == [];
    TotalWidthFrom(h, 6);
    TotalWidthFrom(h, 5);
    TotalWidthFrom(h, 4);
    TotalWidthFrom(h, 3);
    TotalWidthFrom(h, 2);
    TotalWidthFrom(h, 1);
    TotalWidthFrom(h, 0);
    assert h[0..] == h;
  }

  /** The footer occupies two bytes. */
  lemma FooterWidth()
    ensures AllFixed(ArgTypes(FooterArgs())) && TotalWidth(ArgTypes(FooterArgs())) == 2
  {
    var f := ArgTypes(FooterArgs());
    assert f[1..] == [];
  }

  /** Opcode 0x93 is stored under the name `"sync_write"`. */
  lemma BulkWriteOpcodeNamedSyncWrite()
    ensures Lookup(0x93).Some? && Lookup(0x93).value.name == "sync_write"
  {
  }

  /** The name `"sync_write"` finds 0x83, which comes first, so 0x93 cannot be
      reached by name. */
  lemma SyncWriteNameFindsFirst(id: int)
    ensures var r := GetPacketFromNameAndArgs("sync_write", Some(id));
      r.Success? && r.value.opcode == 0x83
  {
    var n := NormalizeName("sync_write");
    assert "sync_write"[..5][0] != "inst_"[0] && "sync_write"[..5][1] != "stat_"[1];
    assert n == "inst_sync_write";
    assert n[5..] == "sync_write";
    assert IndexOfName("sync_write", 0) == Some(9);
  }

  /** No name at all reaches opcode 0x93: its entry shares its name with the
      earlier 0x83, and the lookup stops at the first match. */
  lemma NoNameReachesBulkWrite(name: string, id: int)
    ensures var r := GetPacketFromNameAndArgs(name, Some(id));
      r.Success? ==> r.value.opcode != 0x93
  {
    var n := NormalizeName(name)[5..];
    match IndexOfName(n, 0)
    case None =>
    case Some(i) =>
      assert i != 11;
  }

  /** Every name of ten characters in the table starts with `s`. */
  lemma TenCharacterNames()
    ensures forall j :: 0 <= j < InstructionCount ==>
      |InstructionAt(j).definition.name| != 10 || InstructionAt(j).definition.name[0] == 's'
  {
  }

  /** No definition is named `"bulk_write"`, so that name is refused. */
  lemma BulkWriteNameUnknown(id: int)
    ensures GetPacketFromNameAndArgs("bulk_write", Some(id)) == Failure(UnknownName("inst_bulk_write"))
  {
    var bw := "bulk_write";
    TenCharacterNames();
    assert |bw| == 10 && bw[0] == 'b';
    assert IndexOfName(bw, 0) == None;
    var n := NormalizeName(bw);
    assert bw[..5][0] != "inst_"[0] && bw[..5][0] != "stat_"[0];
    assert n == "inst_bulk_write";
    assert n[5..] == bw;
  }
}
