/** Argument and register types of the Dynamixel 2.0 definitions, and the
    value codec they imply. The packing of argument values into payload bytes
    belongs to the perilib base classes, which are not part of this model; it is
    modelled here as the plain little-endian codec the type names describe:
    fixed-width integers low byte first (signed ones in two's complement), a
    fixed byte array of its declared width, and a greedy byte array that takes
    the rest of the payload. */
module Fields {
  import opened Bytes

  /** The `"type"` strings of the definitions. */
  datatype FieldType =
    | UInt8 | UInt16 | UInt32
    | Int8 | Int16 | Int32
    | UInt8aFixed(width: nat)
    | UInt8aGreedy

  /** One decoded argument: a number, or the bytes of an array type. */
  datatype Value = Number(n: int) | Octets(bytes: seq<Byte>)

  /** The bytes a field occupies, or `None` for the greedy array. */
  function Width(t: FieldType): Option<nat>
  {
    match t
    case UInt8 | Int8 => Some(1)
    case UInt16 | Int16 => Some(2)
    case UInt32 | Int32 => Some(4)
    case UInt8aFixed(w) => Some(w)
    case UInt8aGreedy => None
  }

  /** Whether the field holds a signed integer. */
  predicate IsSigned(t: FieldType)
  {
    t == Int8 || t == Int16 || t == Int32
  }

  /** Whether the field holds a byte array rather than a number. */
  predicate IsArray(t: FieldType)
  {
    t.UInt8aFixed? || t == UInt8aGreedy
  }

  /** 256 to the power `w`: the number of values a `w`-byte field can hold. */
  function Pow256(w: nat): nat
  {
    if w == 0 then 1 else 256 * Pow256(w - 1)
  }

  /** The unsigned little-endian number a byte string encodes. */
  function UnsignedLE(bs: seq<Byte>): (n: nat)
    ensures n < Pow256(|bs|)
    decreases |bs|
  {
    if bs == [] then 0 else bs[0] as int + 256 * UnsignedLE(bs[1..])
  }

  /** The `w` little-endian bytes of `n`. */
  function ToUnsignedLE(n: nat, w: nat): (bs: seq<Byte>)
    requires n < Pow256(w)
    ensures |bs| == w
    decreases w
  {
    if w == 0 then []
    else
      ByteOfInt(n % 256);
      [(n % 256) as Byte] + ToUnsignedLE(n / 256, w - 1)
  }

  /** Two's complement reading of an unsigned `w`-byte number. */
  function ToSigned(u: nat, w: nat): int
  {
    if 2 * u >= Pow256(w) then u - Pow256(w) else u
  }

  /** Two's complement encoding of a signed number as an unsigned `w`-byte one. */
  function FromSigned(n: int, w: nat): int
  {
    if n < 0 then n + Pow256(w) else n
  }

  /** The values a field of type `t` can carry. */
  predicate Fits(t: FieldType, v: Value)
  {
    match t
    case UInt8aFixed(w) => v.Octets? && |v.bytes| == w
    case UInt8aGreedy => v.Octets?
    case _ =>
      v.Number? &&
      var w := Width(t).value;
      if IsSigned(t) then -(Pow256(w) as int) <= 2 * v.n < Pow256(w) else 0 <= v.n < Pow256(w)
  }

  /** Decode one fixed-width field from exactly its bytes. */
  function DecodeField(t: FieldType, bs: seq<Byte>): Value
  {
    if IsArray(t) then Octets(bs)
    else if IsSigned(t) then Number(ToSigned(UnsignedLE(bs), |bs|))
    else Number(UnsignedLE(bs))
  }

  /** Encode one value that fits its field. */
  function EncodeField(t: FieldType, v: Value): (bs: seq<Byte>)
    requires Fits(t, v)
    ensures Width(t).Some? ==> |bs| == Width(t).value
  {
    if IsArray(t) then v.bytes
    else
      var w := Width(t).value;
      ToUnsignedLE(FromSigned(v.n, w), w)
  }

  /** Every field of the list has a fixed width. */
  predicate AllFixed(ts: seq<FieldType>)
  {
    forall i :: 0 <= i < |ts| ==> Width(ts[i]).Some?
  }

  /** The number of bytes a list of fixed-width fields occupies. */
  function TotalWidth(ts: seq<FieldType>): nat
    requires AllFixed(ts)
    decreases |ts|
  {
    if ts == [] then 0 else Width(ts[0]).value + TotalWidth(ts[1..])
  }

  /** Widths add up over concatenation. */
  lemma {:induction false} TotalWidthAppend(a: seq<FieldType>, b: seq<FieldType>)
    requires AllFixed(a) && AllFixed(b)
    ensures AllFixed(a + b) && TotalWidth(a + b) == TotalWidth(a) + TotalWidth(b)
    decreases |a|
  {
    if a == [] {
      assert a + b == b;
    } else {
      assert (a + b)[0] == a[0] && (a + b)[1..] == a[1..] + b;
      TotalWidthAppend(a[1..], b);
    }
  }

  /** The fields after the first of a fixed-width list are fixed-width. */
  lemma AllFixedTail(ts: seq<FieldType>)
    requires AllFixed(ts) && ts != []
    ensures AllFixed(ts[1..])
  {
    forall i | 0 <= i < |ts[1..]| ensures Width(ts[1..][i]).Some? {
      assert ts[1..][i] == ts[i + 1];
    }
  }

  /** A list of fixed-width fields unpacks exactly when the payload is as long
      as the fields together, into one value per field. */
  lemma {:induction false} UnpackFixedLength(ts: seq<FieldType>, bs: seq<Byte>)
    requires AllFixed(ts)
    ensures Unpack(ts, bs).Some? <==> |bs| == TotalWidth(ts)
    ensures Unpack(ts, bs).Some? ==> |Unpack(ts, bs).value| == |ts|
    decreases |ts|
  {
    if ts != [] {
      var w := Width(ts[0]).value;
      AllFixedTail(ts);
      if |bs| >= w {
        UnpackFixedLength(ts[1..], bs[w..]);
      }
    }
  }

  /** Unpacking a fixed-width list decodes the first field from its bytes and
      unpacks the rest from the bytes after them. */
  lemma UnpackFixedCons(ts: seq<FieldType>, bs: seq<Byte>)
    requires AllFixed(ts) && ts != []
    requires Unpack(ts, bs).Some?
    ensures Width(ts[0]).value <= |bs|
    ensures Unpack(ts[1..], bs[Width(ts[0]).value..]).Some?
    ensures Unpack(ts, bs).value ==
      [DecodeField(ts[0], bs[..Width(ts[0]).value])] + Unpack(ts[1..], bs[Width(ts[0]).value..]).value
  {
  }

  /** A slice of a suffix is a slice of the whole. */
  lemma SliceOfSuffix(bs: seq<Byte>, w: nat, i: nat, j: nat)
    requires w <= |bs| && i <= j <= |bs| - w
    ensures bs[w..][i..j] == bs[w + i..w + j]
  {
  }

  /** The offset of field `k` is the first field's width plus the offset of
      field `k - 1` among the rest. */
  lemma OffsetAfterFirst(ts: seq<FieldType>, k: nat)
    requires AllFixed(ts) && 0 < k <= |ts|
    ensures AllFixed(ts[1..][..k - 1])
    ensures TotalWidth(ts[..k]) == Width(ts[0]).value + TotalWidth(ts[1..][..k - 1])
  {
    AllFixedTail(ts);
    assert ts[..k] == [ts[0]] + ts[1..][..k - 1];
    TotalWidthAppend([ts[0]], ts[1..][..k - 1]);
    assert TotalWidth([ts[0]]) == Width(ts[0]).value by {
      assert [ts[0]][1..] == [];
    }
  }

  /** In a payload that unpacks, field `k` of a fixed-width list is decoded
      from the bytes at the sum of the widths before it. */
  lemma {:induction false} UnpackFixedAt(ts: seq<FieldType>, bs: seq<Byte>, k: nat)
    requires AllFixed(ts) && k < |ts|
    requires Unpack(ts, bs).Some?
    ensures TotalWidth(ts[..k]) + Width(ts[k]).value <= |bs|
    ensures var vs := Unpack(ts, bs).value;
      k < |vs| &&
      vs[k] == DecodeField(ts[k], bs[TotalWidth(ts[..k])..TotalWidth(ts[..k]) + Width(ts[k]).value])
    decreases k, 1
  {
    if k == 0 {
      var w := Width(ts[0]).value;
      UnpackFixedCons(ts, bs);
      assert ts[..0] == [];
      assert TotalWidth(ts[..0]) == 0;
      assert bs[0..w] == bs[..w];
    } else {
      UnpackFixedAtLater(ts, bs, k);
    }
  }

  /** The case of `UnpackFixedAt` past the first field: field `k` is field
      `k - 1` of the rest, shifted by the first field's width. */
  lemma {:induction false} UnpackFixedAtLater(ts: seq<FieldType>, bs: seq<Byte>, k: nat)
    requires AllFixed(ts) && 0 < k < |ts|
    requires Unpack(ts, bs).Some?
    ensures TotalWidth(ts[..k]) + Width(ts[k]).value <= |bs|
    ensures var vs := Unpack(ts, bs).value;
      k < |vs| &&
      vs[k] == DecodeField(ts[k], bs[TotalWidth(ts[..k])..TotalWidth(ts[..k]) + Width(ts[k]).value])
    decreases k, 0
  {
    var w := Width(ts[0]).value;
    UnpackAfterFirst(ts, bs, k);
    UnpackFixedAt(ts[1..], bs[w..], k - 1);
    UnpackFixedAtShift(ts, bs, Unpack(ts, bs).value, Unpack(ts[1..], bs[w..]).value, k);
  }

  /** Value `k - 1` of the rest, decoded from the bytes after the first
      field, is value `k` of the whole, decoded at an offset larger by the
      first field's width. */
  lemma UnpackFixedAtShift(ts: seq<FieldType>, bs: seq<Byte>, vs: seq<Value>, tail: seq<Value>, k: nat)
    requires AllFixed(ts) && 0 < k < |ts|
    requires Width(ts[0]).value <= |bs| && AllFixed(ts[1..])
    requires |vs| == |tail| + 1 && vs[1..] == tail
    requires ts[1..][k - 1] == ts[k] && AllFixed(ts[1..][..k - 1])
    requires TotalWidth(ts[..k]) == Width(ts[0]).value + TotalWidth(ts[1..][..k - 1])
    requires var rest, suffix := ts[1..], bs[Width(ts[0]).value..];
      TotalWidth(rest[..k - 1]) + Width(rest[k - 1]).value <= |suffix| &&
      k - 1 < |tail| &&
      tail[k - 1] ==
        DecodeField(rest[k - 1], suffix[TotalWidth(rest[..k - 1])..TotalWidth(rest[..k - 1]) + Width(rest[k - 1]).value])
    ensures TotalWidth(ts[..k]) + Width(ts[k]).value <= |bs|
    ensures k < |vs| && vs[k] == DecodeField(ts[k], bs[TotalWidth(ts[..k])..TotalWidth(ts[..k]) + Width(ts[k]).value])
  {
    ShiftedDecode(ts[k], bs, vs, tail, Width(ts[0]).value, TotalWidth(ts[1..][..k - 1]), TotalWidth(ts[..k]), k);
  }

  /** What `UnpackFixedAtLater` needs about the rest of the list: it unpacks
      from the bytes after the first field into all values but the first, and
      field `k` of the whole is field `k - 1` of the rest, at an offset
      larger by the first field's width. */
  lemma UnpackAfterFirst(ts: seq<FieldType>, bs: seq<Byte>, k: nat)
    requires AllFixed(ts) && 0 < k < |ts|
    requires Unpack(ts, bs).Some?
    ensures var w := Width(ts[0]).value;
      w <= |bs| && AllFixed(ts[1..]) && Unpack(ts[1..], bs[w..]).Some? &&
      |Unpack(ts, bs).value| == |Unpack(ts[1..], bs[w..]).value| + 1 &&
      Unpack(ts, bs).value[1..] == Unpack(ts[1..], bs[w..]).value &&
      ts[1..][k - 1] == ts[k] &&
      AllFixed(ts[1..][..k - 1]) && TotalWidth(ts[..k]) == w + TotalWidth(ts[1..][..k - 1])
  {
    var w := Width(ts[0]).value;
    AllFixedTail(ts);
    UnpackFixedCons(ts, bs);
    UnpackFixedLength(ts[1..], bs[w..]);
    OffsetAfterFirst(ts, k);
  }

  /** Value `k` of a list that starts with one more value than `tail` is
      value `k - 1` of `tail`, and bytes read at offset `o` of the suffix
      after `w` bytes are the bytes at offset `w + o` of the whole. */
  lemma ShiftedDecode(t: FieldType, bs: seq<Byte>, vs: seq<Value>, tail: seq<Value>, w: nat, o: nat, at: nat, k: nat)
    requires Width(t).Some? && at == w + o && at + Width(t).value <= |bs|
    requires 0 < k <= |tail| && |vs| == |tail| + 1 && vs[1..] == tail
    requires tail[k - 1] == DecodeField(t, bs[w..][o..o + Width(t).value])
    ensures vs[k] == DecodeField(t, bs[at..at + Width(t).value])
  {
    var x := Width(t).value;
    assert vs[k] == vs[1..][k - 1];
    SliceOfSuffix(bs, w, o, o + x);
  }

  /** The widths from field `j` on: field `j`'s own plus those after it. */
  lemma TotalWidthFrom(ts: seq<FieldType>, j: nat)
    requires AllFixed(ts) && j < |ts|
    ensures AllFixed(ts[j..]) && AllFixed(ts[j + 1..])
    ensures TotalWidth(ts[j..]) == Width(ts[j]).value + TotalWidth(ts[j + 1..])
  {
    assert ts[j..][1..] == ts[j + 1..];
  }

  /** The widths of the first `k` fields are those of the first `k - 1`
      plus the width of field `k - 1`. */
  lemma TotalWidthPrefixStep(ts: seq<FieldType>, k: nat)
    requires AllFixed(ts) && 0 < k <= |ts|
    ensures AllFixed(ts[..k - 1]) && AllFixed(ts[..k])
    ensures TotalWidth(ts[..k]) == TotalWidth(ts[..k - 1]) + Width(ts[k - 1]).value
  {
    assert ts[..k] == ts[..k - 1] + [ts[k - 1]];
    assert AllFixed([ts[k - 1]]);
    TotalWidthAppend(ts[..k - 1], [ts[k - 1]]);
    assert TotalWidth([ts[k - 1]]) == Width(ts[k - 1]).value by {
      assert [ts[k - 1]][1..] == [];
    }
  }

  /** A field list whose only greedy field, if any, is the last one. */
  predicate GreedyLast(ts: seq<FieldType>)
  {
    forall i :: 0 <= i < |ts| - 1 ==> ts[i] != UInt8aGreedy
  }

  /** Unpack a payload into one value per field, in order; `None` when the
      payload is too short or has bytes left over. */
  function Unpack(ts: seq<FieldType>, bs: seq<Byte>): Option<seq<Value>>
    decreases |ts|
  {
    if ts == [] then (if bs == [] then Some([]) else None)
    else
      match Width(ts[0])
      case None =>
        (match Unpack(ts[1..], []) case None => None case Some(rest) => Some([Octets(bs)] + rest))
      case Some(w) =>
        if |bs| < w then None
        else match Unpack(ts[1..], bs[w..]) case None => None case Some(rest) => Some([DecodeField(ts[0], bs[..w])] + rest)
  }

  /** Pack one value per field, in order; `None` when a value does not fit. */
  function Pack(ts: seq<FieldType>, vs: seq<Value>): Option<seq<Byte>>
    decreases |ts|
  {
    if ts == [] || vs == [] then (if ts == [] && vs == [] then Some([]) else None)
    else if !Fits(ts[0], vs[0]) then None
    else match Pack(ts[1..], vs[1..]) case None => None case Some(rest) => Some(EncodeField(ts[0], vs[0]) + rest)
  }

  /** Reading back little-endian bytes gives the number written. */
  lemma {:induction false} UnsignedRoundTrip(n: nat, w: nat)
    requires n < Pow256(w)
    ensures UnsignedLE(ToUnsignedLE(n, w)) == n
    decreases w
  {
    if w > 0 {
      UnsignedRoundTrip(n / 256, w - 1);
      var bs := ToUnsignedLE(n, w);
      ByteOfInt(n % 256);
      assert bs[0] == (n % 256) as Byte && bs[1..] == ToUnsignedLE(n / 256, w - 1);
    }
  }

  /** Writing back the number some bytes encode gives the bytes. */
  lemma {:induction false} UnsignedBytesRoundTrip(bs: seq<Byte>)
    ensures ToUnsignedLE(UnsignedLE(bs), |bs|) == bs
    decreases |bs|
  {
    if bs != [] {
      var m := UnsignedLE(bs[1..]);
      var n := UnsignedLE(bs);
      UnsignedBytesRoundTrip(bs[1..]);
      LowByteSplit(bs[0] as int, m);
      IntOfByte(bs[0]);
      assert ToUnsignedLE(n, |bs|) == [(n % 256) as Byte] + ToUnsignedLE(n / 256, |bs| - 1);
      assert bs == [bs[0]] + bs[1..];
    }
  }

  /** The low byte and the rest of a number written in base 256. */
  lemma LowByteSplit(b: int, m: int)
    requires 0 <= b < 256
    ensures (b + 256 * m) % 256 == b && (b + 256 * m) / 256 == m
  {
  }

  /** Converting a byte to an integer and back loses nothing. */
  lemma IntOfByte(b: Byte)
    ensures (b as int) as Byte == b
  {
  }

  /** Each field value decodes back to itself. */
  lemma FieldRoundTrip(t: FieldType, v: Value)
    requires Fits(t, v) && t != UInt8aGreedy
    ensures DecodeField(t, EncodeField(t, v)) == v
  {
    if !IsArray(t) {
      var w := Width(t).value;
      var u := FromSigned(v.n, w);
      UnsignedRoundTrip(u, w);
    }
  }

  /** Each field's bytes encode back to themselves. */
  lemma FieldBytesRoundTrip(t: FieldType, bs: seq<Byte>)
    requires Width(t).Some? && |bs| == Width(t).value
    ensures Fits(t, DecodeField(t, bs)) && EncodeField(t, DecodeField(t, bs)) == bs
  {
    if !IsArray(t) {
      UnsignedBytesRoundTrip(bs);
    }
  }

  /** Unpacking gives one value per field. */
  lemma {:induction false} UnpackOneValuePerType(ts: seq<FieldType>, bs: seq<Byte>)
    requires Unpack(ts, bs).Some?
    ensures |Unpack(ts, bs).value| == |ts|
    decreases |ts|
  {
    if ts != [] {
      match Width(ts[0])
      case None => UnpackOneValuePerType(ts[1..], []);
      case Some(w) => UnpackOneValuePerType(ts[1..], bs[w..]);
    }
  }

  /** Unpacking what was packed gives the values back, when the greedy field
      (if any) comes last. */
  lemma {:induction false} UnpackPack(ts: seq<FieldType>, vs: seq<Value>)
    requires GreedyLast(ts)
    requires Pack(ts, vs).Some?
    ensures Unpack(ts, Pack(ts, vs).value) == Some(vs)
    decreases |ts|
  {
    if ts != [] {
      GreedyLastTail(ts);
      UnpackPack(ts[1..], vs[1..]);
      UnpackPackStep(ts, vs);
    }
  }

  /** Dropping the first field keeps the greedy field last. */
  lemma GreedyLastTail(ts: seq<FieldType>)
    requires GreedyLast(ts) && ts != []
    ensures GreedyLast(ts[1..])
  {
    forall i | 0 <= i < |ts[1..]| - 1
      ensures ts[1..][i] != UInt8aGreedy
    {
      assert ts[1..][i] == ts[i + 1];
    }
  }

  /** The step of `UnpackPack`: when the rest of the values come back from
      the rest of the bytes, so do all of them. */
  lemma UnpackPackStep(ts: seq<FieldType>, vs: seq<Value>)
    requires GreedyLast(ts) && ts != []
    requires Pack(ts, vs).Some?
    requires Unpack(ts[1..], Pack(ts[1..], vs[1..]).value) == Some(vs[1..])
    ensures Unpack(ts, Pack(ts, vs).value) == Some(vs)
  {
    var bs := Pack(ts, vs).value;
    var head := EncodeField(ts[0], vs[0]);
    var rest := Pack(ts[1..], vs[1..]).value;
    assert bs == head + rest;
    if ts[0] == UInt8aGreedy {
      assert |ts| == 1 && ts[1..] == [];
      assert vs[1..] == [] && rest == [];
      assert bs == vs[0].bytes;
      assert Unpack(ts[1..], []) == Some([]) && Width(ts[0]) == None;
      assert [Octets(bs)] + [] == [Octets(bs)];
      assert vs == [vs[0]];
    } else {
      var w := Width(ts[0]).value;
      assert bs[..w] == head && bs[w..] == rest;
      FieldRoundTrip(ts[0], vs[0]);
      assert vs == [vs[0]] + vs[1..];
    }
  }

  /** Packing what was unpacked gives the payload back. */
  lemma {:induction false} PackUnpack(ts: seq<FieldType>, bs: seq<Byte>)
    requires Unpack(ts, bs).Some?
    ensures Pack(ts, Unpack(ts, bs).value) == Some(bs)
    decreases |ts|
  {
    if ts != [] {
      var vs := Unpack(ts, bs).value;
      match Width(ts[0])
      case None =>
        PackUnpack(ts[1..], []);
        assert vs[1..] == Unpack(ts[1..], []).value;
        assert bs + [] == bs;
      case Some(w) =>
        PackUnpack(ts[1..], bs[w..]);
        FieldBytesRoundTrip(ts[0], bs[..w]);
        assert vs[1..] == Unpack(ts[1..], bs[w..]).value;
        assert bs[..w] + bs[w..] == bs;
    }
  }
}
