/** The generic control table, `ControlTable`: a register map given as a list
    of fields, each with a name, a type and an address, and the operations on
    it — the table with every field unset, the table filled from a buffer
    read from the servo, the field lookup by name, and the lines of the text
    form, which skips the reserved fields. The X-series map is in
    `ControlTableX`. */
module ControlTable {
  import opened Bytes
  import opened Fields

  /** One entry of `fields`: the EEPROM flag, name, type, address and
      writable flag. */
  datatype Field = Field(eeprom: bool, name: string, ftype: FieldType, address: nat, writable: bool)

  /** The instance's `_data`: field name to value, `None` for a field not
      read yet. */
  type Table = map<string, Option<Value>>

  /** The field types in declaration order, as handed to the unpacker. */
  function Types(fs: seq<Field>): (ts: seq<FieldType>)
    ensures |ts| == |fs|
    ensures forall i :: 0 <= i < |fs| ==> ts[i] == fs[i].ftype
  {
    seq(|fs|, i requires 0 <= i < |fs| => fs[i].ftype)
  }

  /** No two fields share a name. */
  predicate UniqueNames(fs: seq<Field>)
  {
    forall i, j :: 0 <= i < |fs| && 0 <= j < |fs| && fs[i].name == fs[j].name ==> i == j
  }

  /** The fields tile `size` bytes in declaration order: every field has a
      width, each starts where the ones before it end, and together they
      span `size` bytes. */
  predicate PackedAt(fs: seq<Field>, size: nat)
  {
    AllFixed(Types(fs)) && TotalWidth(Types(fs)) == size &&
    forall k :: 0 <= k < |fs| ==> TotalWidth(Types(fs)[..k]) == fs[k].address
  }

  /** The field list as declared: every field has a width, the first starts
      at address 0, and each ends where the next starts, the last at `size`. */
  predicate Contiguous(fs: seq<Field>, size: nat)
  {
    AllFixed(Types(fs)) &&
    (if fs == [] then size == 0 else fs[0].address == 0) &&
    forall i :: 0 <= i < |fs| ==> Linked(fs, size, i)
  }

  /** Field `i` has a width and ends where the next field starts, or at
      `size` when it is the last. */
  predicate Linked(fs: seq<Field>, size: nat, i: nat)
    requires i < |fs|
  {
    Width(fs[i].ftype).Some? &&
    fs[i].address + Width(fs[i].ftype).value == if i + 1 < |fs| then fs[i + 1].address else size
  }

  /** One link of a contiguous list: field `i` ends where the next one
      starts, or at `size` when it is the last. */
  lemma ContiguousAt(fs: seq<Field>, size: nat, i: nat)
    requires Contiguous(fs, size) && i < |fs|
    ensures Width(Types(fs)[i]).Some?
    ensures fs[i].address + Width(Types(fs)[i]).value == if i + 1 < |fs| then fs[i + 1].address else size
  {
    assert Linked(fs, size, i);
  }

  /** In a contiguous list the widths of the fields before field `k` add up
      to its address, and all of them to `size`. */
  lemma {:induction false} OffsetsFromContiguous(fs: seq<Field>, size: nat, k: nat)
    requires Contiguous(fs, size) && k <= |fs|
    ensures AllFixed(Types(fs)[..k])
    ensures TotalWidth(Types(fs)[..k]) == if k < |fs| then fs[k].address else size
    decreases k
  {
    if k == 0 {
      assert Types(fs)[..0] == [];
    } else {
      OffsetsFromContiguous(fs, size, k - 1);
      TotalWidthPrefixStep(Types(fs), k);
      ContiguousAt(fs, size, k - 1);
    }
  }

  /** A contiguous field list tiles `size` bytes. */
  lemma ContiguousIsPacked(fs: seq<Field>, size: nat)
    requires Contiguous(fs, size)
    ensures PackedAt(fs, size)
  {
    OffsetsFromContiguous(fs, size, |fs|);
    assert Types(fs)[..|fs|] == Types(fs);
    forall k | 0 <= k < |fs|
      ensures AllFixed(Types(fs)[..k]) && TotalWidth(Types(fs)[..k]) == fs[k].address
    {
      OffsetsFromContiguous(fs, size, k);
    }
  }

  /** Index of the first field from `k` on named `name`. */
  function FindField(fs: seq<Field>, name: string, k: nat): (r: Option<nat>)
    requires k <= |fs|
    ensures r.Some? ==> k <= r.value < |fs| && fs[r.value].name == name
    ensures r.Some? ==> forall j :: k <= j < r.value ==> fs[j].name != name
    ensures r.None? <==> forall j :: k <= j < |fs| ==> fs[j].name != name
    decreases |fs| - k
  {
    if k == |fs| then None
    else if fs[k].name == name then Some(k)
    else FindField(fs, name, k + 1)
  }

  /** `get_field_info(field_name)`: the first field with that name, `None`
      when there is none. */
  function GetFieldInfo(fs: seq<Field>, name: string): (r: Option<Field>)
    ensures r.Some? <==> exists i :: 0 <= i < |fs| && fs[i].name == name
    ensures r.Some? ==> r.value.name == name && r.value in fs
  {
    match FindField(fs, name, 0)
    case None => None
    case Some(i) => Some(fs[i])
  }

  /** With distinct names every field is found under its own name. */
  lemma FieldInfoByName(fs: seq<Field>, i: nat)
    requires UniqueNames(fs) && i < |fs|
    ensures GetFieldInfo(fs, fs[i].name) == Some(fs[i])
  {
  }

  /** `__init__()` without a buffer: every field present and unset, entered
      in declaration order. */
  function EmptyTable(fs: seq<Field>): (t: Table)
    ensures forall name :: name in t <==> GetFieldInfo(fs, name).Some?
    ensures forall name :: name in t ==> t[name] == None
    decreases |fs|
  {
    if fs == [] then map[]
    else
      var n := |fs| - 1;
      var prefix := EmptyTable(fs[..n]);
      assert forall i :: 0 <= i < n ==> fs[..n][i] == fs[i];
      prefix[fs[n].name := None]
  }

  /** The loop of `__init__()`: one entry per field, set to `None`. The
      table has one key per field when the names are distinct. */
  method EmptyTableLoop(fs: seq<Field>) returns (data: Table)
    ensures data == EmptyTable(fs)
    ensures UniqueNames(fs) ==> |data| == |fs|
  {
    data := map[];
    var k := 0;
    while k < |fs|
      invariant k <= |fs|
      invariant data == EmptyTable(fs[..k])
      invariant UniqueNames(fs) ==> |data| == k
    {
      EmptyTableStep(fs, k);
      if UniqueNames(fs) {
        EmptyTableFresh(fs, k);
      }
      data := data[fs[k].name := None];
      k := k + 1;
    }
    assert fs[..k] == fs;
  }

  /** The empty table of one more field adds that field's entry. */
  lemma EmptyTableStep(fs: seq<Field>, k: nat)
    requires k < |fs|
    ensures EmptyTable(fs[..k + 1]) == EmptyTable(fs[..k])[fs[k].name := None]
  {
    assert fs[..k + 1][..k] == fs[..k];
  }

  /** With distinct names the next field's name is not yet a key. */
  lemma EmptyTableFresh(fs: seq<Field>, k: nat)
    requires UniqueNames(fs) && k < |fs|
    ensures fs[k].name !in EmptyTable(fs[..k])
  {
  }

  /** The dictionary the unpacker builds from the fields and their values,
      entry by entry in declaration order (a later field with the same name
      would overwrite an earlier one). */
  function Entries(fs: seq<Field>, vs: seq<Value>): (t: Table)
    requires |fs| == |vs|
    ensures forall name :: name in t <==> exists i :: 0 <= i < |fs| && fs[i].name == name
    ensures forall name :: name in t ==> t[name].Some?
    decreases |fs|
  {
    if fs == [] then map[]
    else
      var n := |fs| - 1;
      var prefix := Entries(fs[..n], vs[..n]);
      assert forall i :: 0 <= i < n ==> fs[..n][i] == fs[i];
      prefix[fs[n].name := Some(vs[n])]
  }

  /** With distinct names each field's entry holds that field's value. */
  lemma {:induction false} EntriesAt(fs: seq<Field>, vs: seq<Value>, i: nat)
    requires |fs| == |vs| && UniqueNames(fs) && i < |fs|
    ensures Entries(fs, vs)[fs[i].name] == Some(vs[i])
    decreases |fs|
  {
    var n := |fs| - 1;
    if i < n {
      assert UniqueNames(fs[..n]);
      assert fs[..n][i] == fs[i] && vs[..n][i] == vs[i];
      EntriesAt(fs[..n], vs[..n], i);
    }
  }

  /** `populate_data_from_buffer(buffer)`: unpack the buffer into the fields
      in declaration order and key each value by its field's name. The
      unpacker refuses a buffer that does not fit the fields. */
  function Populate(fs: seq<Field>, buffer: seq<Byte>): (r: Option<Table>)
    ensures AllFixed(Types(fs)) ==> (r.Some? <==> |buffer| == TotalWidth(Types(fs)))
    ensures r.Some? ==> r.value.Keys == EmptyTable(fs).Keys
    ensures r.Some? ==> forall name :: name in r.value ==> r.value[name].Some?
  {
    var ts := Types(fs);
    if AllFixed(ts) then UnpackFixedLength(ts, buffer); PopulateFrom(fs, buffer)
    else PopulateFrom(fs, buffer)
  }

  /** The unpacking and keying step of `Populate`. */
  function PopulateFrom(fs: seq<Field>, buffer: seq<Byte>): (r: Option<Table>)
    ensures r.Some? <==> Unpack(Types(fs), buffer).Some?
    ensures r.Some? ==> r.value.Keys == EmptyTable(fs).Keys
    ensures r.Some? ==> forall name :: name in r.value ==> r.value[name].Some?
  {
    match Unpack(Types(fs), buffer)
    case None => None
    case Some(vs) =>
      UnpackOneValuePerType(Types(fs), buffer);
      Some(Entries(fs, vs))
  }

  /** A buffer that unpacks fills the table with the unpacked values. */
  lemma PopulateIsEntries(fs: seq<Field>, buffer: seq<Byte>)
    requires Unpack(Types(fs), buffer).Some?
    ensures |Unpack(Types(fs), buffer).value| == |fs|
    ensures Populate(fs, buffer) == Some(Entries(fs, Unpack(Types(fs), buffer).value))
  {
    UnpackOneValuePerType(Types(fs), buffer);
  }

  /** In a map that tiles `size` bytes, field `i` is unpacked from the bytes
      at its address. */
  lemma UnpackedAtAddress(fs: seq<Field>, size: nat, buffer: seq<Byte>, i: nat)
    requires PackedAt(fs, size) && |buffer| == size && i < |fs|
    ensures Width(fs[i].ftype).Some?
    ensures fs[i].address + Width(fs[i].ftype).value <= |buffer|
    ensures Unpack(Types(fs), buffer).Some?
    ensures var vs := Unpack(Types(fs), buffer).value;
      i < |vs| &&
      vs[i] == DecodeField(fs[i].ftype, buffer[fs[i].address..fs[i].address + Width(fs[i].ftype).value])
  {
    var ts := Types(fs);
    UnpackFixedLength(ts, buffer);
    UnpackFixedAt(ts, buffer, i);
    assert ts[i] == fs[i].ftype;
  }

  /** A map that tiles `size` bytes fills from a buffer exactly when the
      buffer is `size` bytes long. */
  lemma PopulateNeedsSize(fs: seq<Field>, size: nat, buffer: seq<Byte>)
    requires PackedAt(fs, size)
    ensures Populate(fs, buffer).Some? <==> |buffer| == size
  {
  }

  /** In a map whose fields are distinct and tile `size` bytes, filling from a
      buffer of `size` bytes puts in each field the value decoded from the
      bytes at its address. */
  lemma PopulateDecodesAtAddress(fs: seq<Field>, size: nat, buffer: seq<Byte>, i: nat)
    requires UniqueNames(fs) && PackedAt(fs, size)
    requires |buffer| == size && i < |fs|
    ensures Width(fs[i].ftype).Some?
    ensures fs[i].address + Width(fs[i].ftype).value <= |buffer|
    ensures Populate(fs, buffer).Some?
    ensures Populate(fs, buffer).value[fs[i].name] ==
      Some(DecodeField(fs[i].ftype, buffer[fs[i].address..fs[i].address + Width(fs[i].ftype).value]))
  {
    UnpackedAtAddress(fs, size, buffer, i);
    PopulateIsEntries(fs, buffer);
    EntriesAt(fs, Unpack(Types(fs), buffer).value, i);
  }

  /** A filled table keeps every byte of the buffer: with distinct names, two
      buffers that fill the same table are equal. */
  lemma PopulateInjective(fs: seq<Field>, a: seq<Byte>, b: seq<Byte>)
    requires UniqueNames(fs)
    requires Populate(fs, a).Some? && Populate(fs, a) == Populate(fs, b)
    ensures a == b
  {
    var ts := Types(fs);
    var va := Unpack(ts, a).value;
    var vb := Unpack(ts, b).value;
    UnpackOneValuePerType(ts, a);
    UnpackOneValuePerType(ts, b);
    forall i | 0 <= i < |fs|
      ensures va[i] == vb[i]
    {
      EntriesAt(fs, va, i);
      EntriesAt(fs, vb, i);
    }
    assert va == vb;
    PackUnpack(ts, a);
    PackUnpack(ts, b);
  }

  /** `__init__(buffer)`: fill from the buffer when one is given, otherwise
      start empty. */
  function New(fs: seq<Field>, buffer: Option<seq<Byte>>): (r: Option<Table>)
    ensures buffer.None? ==> r == Some(EmptyTable(fs))
    ensures buffer.Some? && AllFixed(Types(fs)) ==> (r.Some? <==> |buffer.value| == TotalWidth(Types(fs)))
    ensures r.Some? ==> r.value.Keys == EmptyTable(fs).Keys
  {
    match buffer
    case None => Some(EmptyTable(fs))
    case Some(b) => Populate(fs, b)
  }

  /** `s[k:k+3] == "___"`. */
  predicate TripleUnderscoreAt(s: string, k: int)
  {
    0 <= k && k + 3 <= |s| && s[k] == '_' && s[k + 1] == '_' && s[k + 2] == '_'
  }

  /** `"___" in name`: the text form skips such fields. */
  predicate IsReserved(name: string)
  {
    exists k | 0 <= k < |name| :: TripleUnderscoreAt(name, k)
  }

  /** One line of the text form: the field name and `None` or the number. */
  datatype Line = Line(name: string, value: Option<int>)

  /** `"%d"` and `"None"` can render the entry: the name is a key and its
      value is unset or a number. */
  predicate Printable(t: Table, name: string)
  {
    name in t && (t[name].None? || t[name].value.Number?)
  }

  /** The number a printable entry shows, or `None`. */
  function Shown(v: Option<Value>): (r: Option<int>)
    requires v.None? || v.value.Number?
    ensures r.Some? <==> v.Some?
    ensures r.Some? ==> v.value == Number(r.value)
  {
    if v.None? then None else Some(v.value.n)
  }

  /** `__str__()` from field `k` on: a line for every field whose name does
      not contain `___`, in declaration order; `None` when such a field is
      missing from the table (`KeyError`) or holds something `"%d"` cannot
      format (`TypeError`). */
  function DescribeFrom(fs: seq<Field>, t: Table, k: nat): (r: Option<seq<Line>>)
    requires k <= |fs|
    ensures r.Some? <==> forall i :: k <= i < |fs| && !IsReserved(fs[i].name) ==> Printable(t, fs[i].name)
    ensures r.Some? ==> forall j :: 0 <= j < |r.value| ==>
      !IsReserved(r.value[j].name) && Printable(t, r.value[j].name) &&
      r.value[j].value == Shown(t[r.value[j].name])
    ensures r.Some? ==> forall i :: k <= i < |fs| && !IsReserved(fs[i].name) ==>
      Line(fs[i].name, Shown(t[fs[i].name])) in r.value
    decreases |fs| - k
  {
    if k == |fs| then Some([])
    else if IsReserved(fs[k].name) then DescribeFrom(fs, t, k + 1)
    else if !Printable(t, fs[k].name) then None
    else
      match DescribeFrom(fs, t, k + 1)
      case None => None
      case Some(rest) =>
        var lines := [Line(fs[k].name, Shown(t[fs[k].name]))] + rest;
        assert forall j :: 0 <= j < |rest| ==> lines[j + 1] == rest[j];
        Some(lines)
  }

  /** `__str__()`: the lines of the text form. */
  function Describe(fs: seq<Field>, t: Table): (r: Option<seq<Line>>)
    ensures r.Some? <==> forall i :: 0 <= i < |fs| && !IsReserved(fs[i].name) ==> Printable(t, fs[i].name)
    ensures r.Some? ==> forall j :: 0 <= j < |r.value| ==>
      !IsReserved(r.value[j].name) && Printable(t, r.value[j].name) &&
      r.value[j].value == Shown(t[r.value[j].name])
    ensures r.Some? ==> forall i :: 0 <= i < |fs| && !IsReserved(fs[i].name) ==>
      Line(fs[i].name, Shown(t[fs[i].name])) in r.value
  {
    DescribeFrom(fs, t, 0)
  }

  /** The empty table renders, every line showing `None`. */
  lemma DescribeEmpty(fs: seq<Field>)
    ensures var r := Describe(fs, EmptyTable(fs));
      r.Some? && forall j :: 0 <= j < |r.value| ==> r.value[j].value == None
  {
  }

  /** A filled table renders when every shown field is a number field: each
      line shows a number, the one decoded from its field's bytes. */
  lemma DescribePopulated(fs: seq<Field>, size: nat, buffer: seq<Byte>)
    requires UniqueNames(fs) && PackedAt(fs, size) && |buffer| == size
    requires forall i :: 0 <= i < |fs| && !IsReserved(fs[i].name) ==> !IsArray(fs[i].ftype)
    ensures Populate(fs, buffer).Some?
    ensures var r := Describe(fs, Populate(fs, buffer).value);
      r.Some? && forall j :: 0 <= j < |r.value| ==> r.value[j].value.Some?
  {
    var t := Populate(fs, buffer).value;
    forall i | 0 <= i < |fs| && !IsReserved(fs[i].name)
      ensures Printable(t, fs[i].name)
    {
      PopulateDecodesAtAddress(fs, size, buffer, i);
    }
  }
}
