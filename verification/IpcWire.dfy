/**
 The wire form of a value under its schema, as the device's own serializer writes it: real variant
 indices, length prefixes for sequences and maps. The decoder reads every such form back.
 */
module IpcWire {
  import opened Wrappers
  import opened Postcard
  import opened IpcValue
  import opened IpcDecode
  import opened IpcEncode

  // --- Values of a schema --------------------------------------------------------------------

  predicate IsResult(v: Value) {
    v.Ok? || v.Err?
  }

  /** A result is the variant of its name; other variants are spelled out. */
  predicate IsVariant(v: Value) {
    IsResult(v) || (v.Enum? && !ResultShaped(v.variant, v.payload))
  }

  function VariantName(v: Value): string
    requires IsVariant(v)
  {
    if v.Ok? then "Ok" else if v.Err? then "Err" else v.variant
  }

  function PayloadOf(v: Value): seq<Value>
    requires IsVariant(v)
  {
    if IsResult(v) then [v.inner] else v.payload
  }

  /** `v` is a value of schema `s` that the decoder can produce. */
  predicate Fits(s: Schema, v: Value)
    decreases s, 1
  {
    match s
    case TUint(w) => v.Uint? && v.width == w && v.n < Bound(w)
    case TSint(w) => v.Sint? && v.width == w && InRange(w, v.i)
    case TUsize => v.Uint? && v.width == W64 && v.n < Bound(W64)
    case TIsize => v.Sint? && v.width == W64 && InRange(W64, v.i)
    case TBool => v.Bool?
    case TChar => v.Char?
    case TBytes => v.Bytes? && |v.bytes| < Bound(W64)
    case TUnit => v.Unit?
    case TOption(inner) => v.Absent? || (v.Present? && Fits(inner, v.inner))
    case TNewtype(inner) => Fits(inner, v)
    case TSeq(inner) => v.Tuple? && |v.items| < Bound(W64) && forall i | 0 <= i < |v.items| :: Fits(inner, v.items[i])
    case TMap(key, val) =>
      && v.Tuple? && |v.items| < Bound(W64)
      && forall i | 0 <= i < |v.items| ::
           v.items[i].Tuple? && |v.items[i].items| == 2 && Fits(key, v.items[i].items[0])
               && Fits(val, v.items[i].items[1])
    case TTuple(elems) => v.Tuple? && FitsAll(elems, v.items)
    case TTupleStruct(elems) => v.Tuple? && FitsAll(elems, v.items)
    case TStruct(types) => v.Struct? && FitsFields(types, v.fields)
    case TEnum(variants) =>
      && IsVariant(v)
      && var at := FindVariant(variants, VariantName(v));
         at.Some? && at.value < Bound(W32) && FitsShape(variants[at.value].shape, PayloadOf(v))
    case TUnsupported => false
  }

  predicate FitsAll(elems: seq<Schema>, items: seq<Value>)
    decreases elems, 0
  {
    |elems| == |items| && forall i | 0 <= i < |elems| :: Fits(elems[i], items[i])
  }

  predicate FitsFields(types: seq<FieldType>, fields: seq<Field>)
    decreases types, 0
  {
    && |types| == |fields| && DistinctFields(fields)
    && forall i | 0 <= i < |types| :: types[i].name == fields[i].name && Fits(types[i].ty, fields[i].value)
  }

  /** Struct variants with fields never decode, so no payload fits them. */
  predicate FitsShape(shape: Shape, payload: seq<Value>)
    decreases shape, 0
  {
    match shape
    case UnitShape => payload == []
    case NewtypeShape(ty) => |payload| == 1 && Fits(ty, payload[0])
    case TupleShape(elems) => FitsAll(elems, payload)
    case StructShape(types) => types == [] && payload == [Struct([])]
  }

  // --- Wire forms ----------------------------------------------------------------------------

  function Wire(s: Schema, v: Value): seq<Byte>
    requires Fits(s, v)
    decreases s, 1
  {
    match s
    case TOption(inner) => if v.Absent? then [0] else [1] + Wire(inner, v.inner)
    case TNewtype(inner) => Wire(inner, v)
    case TSeq(inner) => Varint(|v.items|) + WireRepeated(inner, v.items)
    case TMap(key, val) => Varint(|v.items|) + WirePairs(key, val, v.items)
    case TTuple(elems) => WireAll(elems, v.items)
    case TTupleStruct(elems) => WireAll(elems, v.items)
    case TStruct(types) => WireFields(types, v.fields)
    case TEnum(variants) =>
      var at := FindVariant(variants, VariantName(v)).value;
      Varint(at) + WireShape(variants[at].shape, PayloadOf(v))
    case _ => Serialize(v)
  }

  function WireShape(shape: Shape, payload: seq<Value>): seq<Byte>
    requires FitsShape(shape, payload)
    decreases shape, 0
  {
    match shape
    case NewtypeShape(ty) => Wire(ty, payload[0])
    case TupleShape(elems) => WireAll(elems, payload)
    case _ => []
  }

  function WireAll(elems: seq<Schema>, items: seq<Value>): seq<Byte>
    requires FitsAll(elems, items)
    decreases elems, 0
  {
    if elems == [] then []
    else
      var n := |elems| - 1;
      WireAll(elems[..n], items[..n]) + Wire(elems[n], items[n])
  }

  function WireFields(types: seq<FieldType>, fields: seq<Field>): seq<Byte>
    requires FitsFields(types, fields)
    decreases types, 0
  {
    if types == [] then []
    else
      var n := |types| - 1;
      WireFields(types[..n], fields[..n]) + Wire(types[n].ty, fields[n].value)
  }

  function WireRepeated(inner: Schema, items: seq<Value>): seq<Byte>
    requires forall i | 0 <= i < |items| :: Fits(inner, items[i])
    decreases inner, 2, |items|
  {
    if items == [] then []
    else
      var n := |items| - 1;
      WireRepeated(inner, items[..n]) + Wire(inner, items[n])
  }

  function WirePairs(key: Schema, val: Schema, items: seq<Value>): seq<Byte>
    requires forall i | 0 <= i < |items| ::
               items[i].Tuple? && |items[i].items| == 2 && Fits(key, items[i].items[0]) && Fits(val, items[i].items[1])
    decreases TMap(key, val), 0, |items|
  {
    if items == [] then []
    else
      var n := |items| - 1;
      WirePairs(key, val, items[..n]) + (Wire(key, items[n].items[0]) + Wire(val, items[n].items[1]))
  }

  // --- Reading them back ---------------------------------------------------------------------

  /** The step read `v` and stopped right before `rest`. */
  predicate Reads(r: Step<Value>, v: Value, rest: seq<Byte>) {
    r.Success? && r.value.rest == rest && Canon(r.value.value) == v
  }

  predicate ReadsAll(r: Step<seq<Value>>, items: seq<Value>, rest: seq<Byte>) {
    r.Success? && r.value.rest == rest && CanonAll(r.value.value) == items
  }

  predicate ReadsFields(r: Step<seq<Field>>, fields: seq<Field>, rest: seq<Byte>) {
    r.Success? && r.value.rest == rest && CanonFields(r.value.value) == fields
  }

  lemma SplitOff(a: seq<Byte>, b: seq<Byte>, rest: seq<Byte>)
    ensures (a + b) + rest == a + (b + rest)
  {
  }

  lemma {:induction false} LengthReads(w: Width, n: nat, tail: seq<Byte>)
    requires w != W8 && n < Bound(w)
    ensures ReadUint(w, Varint(n) + tail) == Success(Item(n, tail))
  {
    hide ReadUint, Varint;
    UintReads(w, n, tail);
    assert WriteUint(w, n) == Varint(n);
  }

  lemma {:induction false} BytesRead(b: seq<Byte>, rest: seq<Byte>)
    requires |b| < Bound(W64)
    ensures ReadBytes(Varint(|b|) + b + rest) == Success(Item(b, rest))
  {
    hide ReadUint, Varint;
    SplitOff(Varint(|b|), b, rest);
    LengthReads(W64, |b|, b + rest);
    assert (b + rest)[..|b|] == b && (b + rest)[|b|..] == rest;
  }

  lemma {:induction false} PrimitiveReads(s: Schema, v: Value, rest: seq<Byte>)
    requires Fits(s, v)
    requires s.TUint? || s.TSint? || s.TUsize? || s.TIsize? || s.TBool? || s.TChar? || s.TBytes? || s.TUnit?
    ensures Reads(Decode(s, Wire(s, v) + rest), v, rest)
  {
    hide ReadUint, ReadSint, WriteUint, WriteSint, Varint, ReadBytes, Bound, InRange, WriteChar, ReadChar;
    match s
    case TUint(w) => UintReads(w, v.n, rest);
    case TSint(w) => SintReads(w, v.i, rest);
    case TUsize => UintReads(W64, v.n, rest);
    case TIsize => SintReads(W64, v.i, rest);
    case TChar => CharReads(v.c, rest);
    case TBytes => BytesRead(v.bytes, rest);
    case TBool => assert (Serialize(v) + rest)[1..] == rest;
    case TUnit => assert Serialize(v) + rest == rest;
  }

  /** The wire form of a value is read back whole, and nothing behind it is touched. */
  lemma {:induction false} WireDecodes(s: Schema, v: Value, rest: seq<Byte>)
    requires Fits(s, v)
    ensures Reads(Decode(s, Wire(s, v) + rest), v, rest)
    decreases s, 2, 0
  {
    hide ReadUint, ReadSint, WriteUint, WriteSint, Varint, ReadBytes, Bound, InRange, DecodeTuple, DecodeFields,
         DecodeShape, DecodeRepeated, DecodePairs, FitsAll, FitsFields, FitsShape, WireAll, WireFields, WireRepeated,
         WirePairs, WireShape;
    match s
    case TOption(inner) =>
      if v.Present? {
        WireDecodes(inner, v.inner, rest);
        assert (Wire(s, v) + rest)[1..] == Wire(inner, v.inner) + rest;
      } else {
        assert (Wire(s, v) + rest)[1..] == rest;
      }
    case TNewtype(inner) => WireDecodes(inner, v, rest);
    case TSeq(inner) => SeqReads(inner, v, rest);
    case TMap(key, val) => MapReads(key, val, v, rest);
    case TTuple(elems) => TupleReads(elems, v.items, rest);
    case TTupleStruct(elems) => TupleReads(elems, v.items, rest);
    case TStruct(types) => FieldsRead(types, v.fields, rest);
    case TEnum(variants) => VariantReads(variants, v, rest);
    case _ => PrimitiveReads(s, v, rest);
  }

  lemma {:induction false} SeqReads(inner: Schema, v: Value, rest: seq<Byte>)
    requires Fits(TSeq(inner), v)
    ensures Reads(Decode(TSeq(inner), Wire(TSeq(inner), v) + rest), v, rest)
    decreases inner, 4, 0
  {
    hide ReadUint, Varint, Bound, DecodeRepeated, WireRepeated;
    SplitOff(Varint(|v.items|), WireRepeated(inner, v.items), rest);
    LengthReads(W64, |v.items|, WireRepeated(inner, v.items) + rest);
    RepeatedReads(inner, v.items, rest);
  }

  lemma {:induction false} MapReads(key: Schema, val: Schema, v: Value, rest: seq<Byte>)
    requires Fits(TMap(key, val), v)
    ensures Reads(Decode(TMap(key, val), Wire(TMap(key, val), v) + rest), v, rest)
    decreases TMap(key, val), 1, 0
  {
    hide ReadUint, Varint, Bound, DecodePairs, WirePairs;
    SplitOff(Varint(|v.items|), WirePairs(key, val, v.items), rest);
    LengthReads(W64, |v.items|, WirePairs(key, val, v.items) + rest);
    PairsRead(key, val, v.items, rest);
  }

  lemma {:induction false} VariantReads(variants: seq<Variant>, v: Value, rest: seq<Byte>)
    requires Fits(TEnum(variants), v)
    ensures Reads(Decode(TEnum(variants), Wire(TEnum(variants), v) + rest), v, rest)
    decreases variants, 1, 0
  {
    hide ReadUint, Varint, DecodeShape, FitsShape, WireShape, Bound;
    var at := FindVariant(variants, VariantName(v)).value;
    var tail := WireShape(variants[at].shape, PayloadOf(v));
    SplitOff(Varint(at), tail, rest);
    LengthReads(W32, at, tail + rest);
    ShapeReads(variants[at].shape, PayloadOf(v), rest);
  }

  lemma {:induction false} ShapeReads(shape: Shape, payload: seq<Value>, rest: seq<Byte>)
    requires FitsShape(shape, payload)
    ensures ReadsAll(DecodeShape(shape, WireShape(shape, payload) + rest), payload, rest)
    decreases shape, 1, 0
  {
    hide DecodeTuple, Decode, FitsAll, Fits, WireAll, Wire;
    match shape
    case UnitShape => assert [] + rest == rest;
    case NewtypeShape(ty) => WireDecodes(ty, payload[0], rest);
    case TupleShape(elems) => TupleReads(elems, payload, rest);
    case StructShape(types) => assert [] + rest == rest;
  }

  lemma {:induction false} TupleReads(elems: seq<Schema>, items: seq<Value>, rest: seq<Byte>)
    requires FitsAll(elems, items)
    ensures ReadsAll(DecodeTuple(elems, WireAll(elems, items) + rest), items, rest)
    decreases elems, 0, 0
  {
    hide Decode, Fits, Wire, Canon, CanonAll;
    if elems != [] {
      var n := |elems| - 1;
      TupleReads(elems[..n], items[..n], Wire(elems[n], items[n]) + rest);
      SplitOff(WireAll(elems[..n], items[..n]), Wire(elems[n], items[n]), rest);
      WireDecodes(elems[n], items[n], rest);
      var front := DecodeTuple(elems[..n], WireAll(elems, items) + rest).value;
      CanonAppends(front.value, Decode(elems[n], front.rest).value.value, items);
    } else {
      NothingCanon();
    }
  }

  lemma {:induction false} CanonAppends(front: seq<Value>, x: Value, items: seq<Value>)
    requires items != [] && CanonAll(front) == items[..|items| - 1] && Canon(x) == items[|items| - 1]
    ensures CanonAll(front + [x]) == items
  {
    hide Canon, CanonAll;
    var n, all := |items| - 1, CanonAll(front + [x]);
    forall i | 0 <= i < |items| ensures all[i] == items[i] {
      if i < n { assert all[i] == Canon(front[i]) == CanonAll(front)[i] == items[..n][i]; }
    }
  }

  lemma {:induction false} RepeatedReads(inner: Schema, items: seq<Value>, rest: seq<Byte>)
    requires forall i | 0 <= i < |items| :: Fits(inner, items[i])
    ensures ReadsAll(DecodeRepeated(inner, |items|, WireRepeated(inner, items) + rest), items, rest)
    decreases inner, 3, |items|
  {
    hide Decode, Fits, Wire, Canon, CanonAll;
    if items != [] {
      var n := |items| - 1;
      RepeatedReads(inner, items[..n], Wire(inner, items[n]) + rest);
      SplitOff(WireRepeated(inner, items[..n]), Wire(inner, items[n]), rest);
      WireDecodes(inner, items[n], rest);
      var front := DecodeRepeated(inner, n, WireRepeated(inner, items) + rest).value;
      CanonAppends(front.value, Decode(inner, front.rest).value.value, items);
    } else {
      NothingCanon();
    }
  }

  lemma {:induction false} PairsRead(key: Schema, val: Schema, items: seq<Value>, rest: seq<Byte>)
    requires forall i | 0 <= i < |items| ::
               items[i].Tuple? && |items[i].items| == 2 && Fits(key, items[i].items[0]) && Fits(val, items[i].items[1])
    ensures ReadsAll(DecodePairs(key, val, |items|, WirePairs(key, val, items) + rest), items, rest)
    decreases TMap(key, val), 0, |items|
  {
    hide Decode, Fits, Wire, Canon, CanonAll;
    if items != [] {
      var n := |items| - 1;
      var k, v := Wire(key, items[n].items[0]), Wire(val, items[n].items[1]);
      PairsRead(key, val, items[..n], (k + v) + rest);
      SplitOff(WirePairs(key, val, items[..n]), k + v, rest);
      SplitOff(k, v, rest);
      WireDecodes(key, items[n].items[0], v + rest);
      WireDecodes(val, items[n].items[1], rest);
      var front := DecodePairs(key, val, n, WirePairs(key, val, items) + rest).value;
      var (x, y) := (Decode(key, front.rest).value.value, Decode(val, v + rest).value.value);
      PairCanon(x, y, items[n]);
      CanonAppends(front.value, Tuple([x, y]), items);
    } else {
      NothingCanon();
    }
  }

  lemma NothingCanon()
    ensures CanonAll([]) == []
  {
  }

  lemma {:induction false} PairCanon(k: Value, v: Value, pair: Value)
    requires pair.Tuple? && |pair.items| == 2 && Canon(k) == pair.items[0] && Canon(v) == pair.items[1]
    ensures Canon(Tuple([k, v])) == pair
  {
    hide Canon;
    assert CanonAll([k, v]) == pair.items;
    TupleCanon([k, v]);
  }

  lemma {:induction false} TupleCanon(items: seq<Value>)
    ensures Canon(Tuple(items)) == Tuple(CanonAll(items))
  {
  }

  lemma {:induction false} InsertAppends(front: seq<Field>, fields: seq<Field>, n: nat, x: Value)
    requires n < |fields| && DistinctFields(fields) && CanonFields(front) == fields[..n] && Canon(x) == fields[n].value
    ensures CanonFields(Insert(front, fields[n].name, x)) == fields[..n + 1]
  {
    hide Canon;
    assert forall i | 0 <= i < n :: front[i].name == CanonFields(front)[i].name == fields[i].name;
  }

  lemma {:induction false} FieldsRead(types: seq<FieldType>, fields: seq<Field>, rest: seq<Byte>)
    requires FitsFields(types, fields)
    ensures ReadsFields(DecodeFields(types, WireFields(types, fields) + rest), fields, rest)
    decreases types, 0, 0
  {
    hide Decode, Fits, Wire, Insert, Canon, CanonFields;
    if types != [] {
      var n := |types| - 1;
      FieldsRead(types[..n], fields[..n], Wire(types[n].ty, fields[n].value) + rest);
      SplitOff(WireFields(types[..n], fields[..n]), Wire(types[n].ty, fields[n].value), rest);
      WireDecodes(types[n].ty, fields[n].value, rest);
      var front := DecodeFields(types[..n], WireFields(types, fields) + rest).value;
      InsertAppends(front.value, fields, n, Decode(types[n].ty, front.rest).value.value);
      assert fields[..n + 1] == fields;
    } else {
      EmptyFields();
    }
  }

  lemma EmptyFields()
    ensures CanonFields([]) == []
  {
  }

  // --- The public decoder --------------------------------------------------------------------

  /** No variant in the value, at any depth, is a result in disguise. */
  predicate Canonical(v: Value)
    decreases v
  {
    match v
    case Enum(variant, payload) => !ResultShaped(variant, payload) && forall i | 0 <= i < |payload| ::
        Canonical(payload[i])
    case Struct(fields) => forall i | 0 <= i < |fields| :: Canonical(fields[i].value)
    case Tuple(items) => forall i | 0 <= i < |items| :: Canonical(items[i])
    case Present(x) => Canonical(x)
    case Ok(x) => Canonical(x)
    case Err(x) => Canonical(x)
    case _ => true
  }

  lemma {:induction false} CanonIsCanonical(v: Value)
    ensures Canonical(Canon(v))
    decreases v
  {
    match v
    case Enum(variant, payload) =>
      forall i | 0 <= i < |payload| ensures Canonical(Canon(payload[i])) { CanonIsCanonical(payload[i]); }
    case Struct(fields) =>
      forall i | 0 <= i < |fields| ensures Canonical(Canon(fields[i].value)) { CanonIsCanonical(fields[i].value); }
    case Tuple(items) =>
      forall i | 0 <= i < |items| ensures Canonical(Canon(items[i])) { CanonIsCanonical(items[i]); }
    case Present(x) => CanonIsCanonical(x);
    case Ok(x) => CanonIsCanonical(x);
    case Err(x) => CanonIsCanonical(x);
    case _ =>
  }

  /** Decodes what the device wrote, whatever follows it, with all results recognised. */
  method DecodePayload(s: Schema, bytes: seq<Byte>) returns (r: Result<Value, DecodeError>)
    ensures forall v, rest | Fits(s, v) && bytes == Wire(s, v) + rest :: r == Success(v)
    ensures r.Success? ==> Canonical(r.value)
    ensures r.Failure? <==> Decode(s, bytes).Failure?
    ensures r == Decoded(s, bytes)
  {
    hide Wire, Fits, Decode, Canon, Canonical;
    var raw := DecodeValue(s, bytes);
    forall v, rest | Fits(s, v) && bytes == Wire(s, v) + rest ensures raw.Success? && Canon(raw.value.value) == v {
      WireDecodes(s, v, rest);
    }
    if raw.Failure? { return Failure(raw.error); }
    CanonIsCanonical(raw.value.value);
    r := Success(Canon(raw.value.value));
  }
}
