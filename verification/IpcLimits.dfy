/** Where the codec is not a round trip: variant indices, sequences and maps, and newtype contents. */
module IpcLimits {
  import opened Wrappers
  import opened Postcard
  import opened IpcValue
  import opened IpcDecode
  import opened IpcEncode
  import opened IpcWire
  import opened IpcRoundTrip

  // --- Generic enums ---------------------------------------------------------------------------

  predicate DistinctVariants(variants: seq<Variant>) {
    forall i, j | 0 <= i < j < |variants| :: variants[i].name != variants[j].name
  }

  /**
   The index is looked up but always written as 0, and struct variants are offered no fields. A generic
   variant therefore survives exactly when it is the first one, carries no struct with fields, and is
   not shaped like a `Result`.
   */
  lemma {:induction false} GenericEnumRoundTrip(variants: seq<Variant>, k: nat, payload: seq<Value>)
    requires k < |variants| && DistinctVariants(variants) && ExactShape(variants[k].shape, payload)
    ensures var v := Enum(variants[k].name, payload);
            && Encode(TEnum(variants), v).Success?
            && (Decoded(TEnum(variants), Encode(TEnum(variants), v).value) == Success(v)
                <==> k == 0 && Readable(variants[0].shape) && !ResultShaped(variants[0].name, payload))
  {
    hide ReadUint, Varint, DecodeTuple, DecodeFields, ExactShape, SerializeAll, SerializeFields, ExactAll, ExactFields,
         Decimal, Decode, DecodeShape, FitsShape, WireShape;
    var name := variants[k].name;
    FindsVariant(variants, k);
    EnumBytes(name, payload);
    FirstVariantRead(variants, SerializeAll(payload));
    if k == 0 && Readable(variants[0].shape) {
      ShapeIsWire(variants[0].shape, payload);
      ShapeReads(variants[0].shape, payload, []);
      assert SerializeAll(payload) + [] == SerializeAll(payload);
    }
  }

  lemma {:induction false} FindsVariant(variants: seq<Variant>, k: nat)
    requires k < |variants| && DistinctVariants(variants)
    ensures FindVariant(variants, variants[k].name) == Some(k)
  {
  }

  lemma {:induction false} EnumBytes(name: string, payload: seq<Value>)
    ensures Serialize(Enum(name, payload)) == Varint(0) + SerializeAll(payload)
  {
  }

  /** Behind index 0 the decoder reads the first variant or fails; a struct with fields always fails. */
  lemma {:induction false} FirstVariantRead(variants: seq<Variant>, tail: seq<Byte>)
    requires variants != []
    ensures var p := DecodeShape(variants[0].shape, tail);
            && Decode(TEnum(variants), Varint(0) + tail) ==
               (if p.Failure? then Failure(p.error)
                else Success(Item(Enum(variants[0].name, p.value.value), p.value.rest)))
            && (!Readable(variants[0].shape) ==> p.Failure?)
  {
    hide ReadUint, Varint;
    LengthReads(W32, 0, tail);
  }

  // --- Sequences and maps ----------------------------------------------------------------------

  ghost predicate NoShorter(r: Step<Value>, bytes: seq<Byte>) {
    r.Success? ==> |Serialize(Canon(r.value.value))| + |r.value.rest| <= |bytes|
  }

  ghost predicate NoShorterAll(r: Step<seq<Value>>, bytes: seq<Byte>) {
    r.Success? ==> |SerializeAll(CanonAll(r.value.value))| + |r.value.rest| <= |bytes|
  }

  ghost predicate NoShorterFields(r: Step<seq<Field>>, bytes: seq<Byte>) {
    r.Success? ==> |SerializeFields(CanonFields(r.value.value))| + |r.value.rest| <= |bytes|
  }

  lemma {:induction false} PrimitiveNoShorter(s: Schema, bytes: seq<Byte>)
    requires s.TUint? || s.TSint? || s.TUsize? || s.TIsize? || s.TBool? || s.TChar? || s.TBytes? || s.TUnit?
             || s.TUnsupported?
    ensures NoShorter(Decode(s, bytes), bytes)
  {
    hide ReadUint, ReadSint, WriteUint, WriteSint, Varint, ReadChar, WriteChar;
    if Decode(s, bytes).Success? {
      match s
      case TUint(w) => UintIsShortest(w, bytes);
      case TSint(w) => SintIsShortest(w, bytes);
      case TUsize => UintIsShortest(W64, bytes);
      case TIsize => SintIsShortest(W64, bytes);
      case TChar => CharIsShortest(bytes);
      case TBytes => LengthIsShortest(W64, bytes);
      case _ =>
    }
  }

  lemma LengthIsShortest(w: Width, bytes: seq<Byte>)
    requires w != W8 && ReadUint(w, bytes).Success?
    ensures var i := ReadUint(w, bytes).value; |Varint(i.value)| + |i.rest| <= |bytes| && |Varint(i.value)| >= 1
  {
    hide ReadUint, Varint;
    UintIsShortest(w, bytes);
    assert WriteUint(w, ReadUint(w, bytes).value.value) == Varint(ReadUint(w, bytes).value.value);
  }

  /** The encoder never writes more bytes for a value than the decoder took to read it. */
  lemma {:induction false} DecodeNoShorter(s: Schema, bytes: seq<Byte>)
    ensures NoShorter(Decode(s, bytes), bytes)
    decreases s, 1, 0
  {
    hide ReadUint, ReadSint, WriteUint, WriteSint, Varint, ReadBytes, ReadChar, WriteChar, DecodeTuple, DecodeFields,
         DecodeShape, DecodeRepeated, DecodePairs, SerializeAll, SerializeFields;
    if Decode(s, bytes).Success? {
      match s
      case TOption(inner) => if bytes[0] == 1 { DecodeNoShorter(inner, bytes[1..]); }
      case TNewtype(inner) => DecodeNoShorter(inner, bytes);
      case TSeq(inner) =>
        LengthIsShortest(W64, bytes);
        RepeatedNoShorter(inner, ReadUint(W64, bytes).value.value, ReadUint(W64, bytes).value.rest);
      case TMap(key, val) =>
        LengthIsShortest(W64, bytes);
        PairsNoShorter(key, val, ReadUint(W64, bytes).value.value, ReadUint(W64, bytes).value.rest);
      case TTuple(elems) => TupleNoShorter(elems, bytes);
      case TTupleStruct(elems) => TupleNoShorter(elems, bytes);
      case TStruct(types) => FieldsNoShorter(types, bytes);
      case TEnum(variants) => EnumNoShorter(variants, bytes);
      case _ => PrimitiveNoShorter(s, bytes);
    }
  }

  lemma SmallVarints()
    ensures |Varint(0)| == 1 && |Varint(1)| == 1
  {
  }

  lemma {:induction false} EnumNoShorter(variants: seq<Variant>, bytes: seq<Byte>)
    ensures NoShorter(Decode(TEnum(variants), bytes), bytes)
    decreases variants, 1, 0
  {
    hide ReadUint, Varint, DecodeTuple, DecodeFields, SerializeAll, SerializeFields, DecodeShape;
    if Decode(TEnum(variants), bytes).Success? {
      LengthIsShortest(W32, bytes);
      SmallVarints();
      var n := ReadUint(W32, bytes).value;
      ShapeNoShorter(variants[n.value].shape, n.rest);
      var p := DecodeShape(variants[n.value].shape, n.rest).value.value;
      if |p| == 1 { OneSerialized(CanonAll(p)); }
    }
  }

  lemma {:induction false} ShapeNoShorter(shape: Shape, bytes: seq<Byte>)
    ensures NoShorterAll(DecodeShape(shape, bytes), bytes)
    decreases shape, 1, 0
  {
    hide Decode, DecodeTuple, DecodeFields, SerializeFields;
    if DecodeShape(shape, bytes).Success? {
      var p := DecodeShape(shape, bytes).value.value;
      match shape
      case UnitShape =>
      case NewtypeShape(ty) => DecodeNoShorter(ty, bytes); OneSerialized(CanonAll(p));
      case TupleShape(elems) => TupleNoShorter(elems, bytes);
      case StructShape(types) => OneSerialized(CanonAll(p)); EmptyFields(); StructSerializes([]);
    }
  }

  lemma {:induction false} CanonSnoc(front: seq<Value>, x: Value)
    ensures |SerializeAll(CanonAll(front + [x]))| == |SerializeAll(CanonAll(front))| + |Serialize(Canon(x))|
  {
    hide Canon, Serialize;
    var all := CanonAll(front + [x]);
    assert all[..|front|] == CanonAll(front);
  }

  lemma {:induction false} TupleNoShorter(elems: seq<Schema>, bytes: seq<Byte>)
    ensures NoShorterAll(DecodeTuple(elems, bytes), bytes)
    decreases elems, 0, 0
  {
    hide Decode, SerializeAll, CanonAll;
    if elems == [] {
      assert CanonAll([]) == [] && SerializeAll([]) == [] by { EmptySerialized(); }
    } else if DecodeTuple(elems, bytes).Success? {
      var n := |elems| - 1;
      TupleNoShorter(elems[..n], bytes);
      var front := DecodeTuple(elems[..n], bytes).value;
      DecodeNoShorter(elems[n], front.rest);
      CanonSnoc(front.value, Decode(elems[n], front.rest).value.value);
    }
  }

  lemma EmptySerialized()
    ensures CanonAll([]) == [] && SerializeAll([]) == []
  {
  }

  lemma {:induction false} RepeatedNoShorter(inner: Schema, n: nat, bytes: seq<Byte>)
    ensures NoShorterAll(DecodeRepeated(inner, n, bytes), bytes)
    decreases inner, 2, n
  {
    hide Decode, SerializeAll, CanonAll;
    if n == 0 {
      EmptySerialized();
    } else if DecodeRepeated(inner, n, bytes).Success? {
      RepeatedNoShorter(inner, n - 1, bytes);
      var front := DecodeRepeated(inner, n - 1, bytes).value;
      DecodeNoShorter(inner, front.rest);
      CanonSnoc(front.value, Decode(inner, front.rest).value.value);
    }
  }

  lemma {:induction false} PairSerialized(k: Value, v: Value)
    ensures |Serialize(Canon(Tuple([k, v])))| == |Serialize(Canon(k))| + |Serialize(Canon(v))|
  {
    hide Canon, Serialize;
    CanonSnoc([k], v);
    CanonSnoc([], k);
    assert [k] + [v] == [k, v] && [] + [k] == [k];
    PairBytes(k, v);
    EmptySerialized();
  }

  lemma PairBytes(k: Value, v: Value)
    ensures Serialize(Canon(Tuple([k, v]))) == SerializeAll(CanonAll([k, v]))
  {
  }

  lemma {:induction false} LastPair(key: Schema, val: Schema, n: nat, bytes: seq<Byte>)
    requires n > 0 && DecodePairs(key, val, n, bytes).Success?
    ensures var front := DecodePairs(key, val, n - 1, bytes);
            && front.Success?
            && var k := Decode(key, front.value.rest);
            && k.Success?
            && var v := Decode(val, k.value.rest);
            && v.Success?
            && DecodePairs(key, val, n, bytes) ==
               Success(Item(front.value.value + [Tuple([k.value.value, v.value.value])], v.value.rest))
  {
    hide Decode;
  }

  lemma {:induction false} NoPairs(key: Schema, val: Schema, bytes: seq<Byte>)
    ensures NoShorterAll(DecodePairs(key, val, 0, bytes), bytes)
  {
    hide Decode;
    EmptySerialized();
  }

  lemma {:induction false} PairsNoShorter(key: Schema, val: Schema, n: nat, bytes: seq<Byte>)
    ensures NoShorterAll(DecodePairs(key, val, n, bytes), bytes)
    decreases TMap(key, val), 0, n
  {
    hide Decode, DecodePairs, SerializeAll, CanonAll, Canon, Serialize;
    if n == 0 {
      NoPairs(key, val, bytes);
    } else if DecodePairs(key, val, n, bytes).Success? {
      LastPair(key, val, n, bytes);
      PairsNoShorter(key, val, n - 1, bytes);
      var front := DecodePairs(key, val, n - 1, bytes).value;
      DecodeNoShorter(key, front.rest);
      var k := Decode(key, front.rest).value;
      DecodeNoShorter(val, k.rest);
      var v := Decode(val, k.rest).value;
      CanonSnoc(front.value, Tuple([k.value, v.value]));
      PairSerialized(k.value, v.value);
    }
  }

  lemma {:induction false} UpdateNoLonger(fields: seq<Field>, i: nat, f: Field)
    requires i < |fields|
    ensures |SerializeFields(fields[i := f])| <= |SerializeFields(fields)| + |Serialize(f.value)|
  {
    hide Serialize;
    var n := |fields| - 1;
    if i < n {
      UpdateNoLonger(fields[..n], i, f);
      assert fields[i := f][..n] == fields[..n][i := f];
    } else {
      assert fields[i := f][..n] == fields[..n];
    }
  }

  lemma {:induction false} InsertNoLonger(front: seq<Field>, name: string, x: Value)
    ensures |SerializeFields(CanonFields(Insert(front, name, x)))|
            <= |SerializeFields(CanonFields(front))| + |Serialize(Canon(x))|
  {
    hide Canon, Serialize;
    var f := Field(name, Canon(x));
    if IndexOf(front, name).Some? {
      UpdateNoLonger(CanonFields(front), IndexOf(front, name).value, f);
      assert CanonFields(Insert(front, name, x)) == CanonFields(front)[IndexOf(front, name).value := f];
    } else {
      SerializeSnoc(CanonFields(front), f);
      assert CanonFields(Insert(front, name, x)) == CanonFields(front) + [f];
    }
  }

  lemma {:induction false} FieldsNoShorter(types: seq<FieldType>, bytes: seq<Byte>)
    ensures NoShorterFields(DecodeFields(types, bytes), bytes)
    decreases types, 0, 0
  {
    hide Decode, Insert, Canon, Serialize;
    if types != [] && DecodeFields(types, bytes).Success? {
      var n := |types| - 1;
      FieldsNoShorter(types[..n], bytes);
      var front := DecodeFields(types[..n], bytes).value;
      DecodeNoShorter(types[n].ty, front.rest);
      InsertNoLonger(front.value, types[n].name, Decode(types[n].ty, front.rest).value.value);
    }
  }

  /** The decoder wants a length the encoder never writes: no value survives a sequence or map schema. */
  lemma SequencesNeverRoundTrip(s: Schema, v: Value)
    requires s.TSeq? || s.TMap?
    ensures Encode(s, v).Success? && Decoded(s, Encode(s, v).value) != Success(v)
  {
    hide ReadUint, Varint, DecodeRepeated, DecodePairs;
    var bytes := Serialize(v);
    if Decode(s, bytes).Success? {
      LengthIsShortest(W64, bytes);
      var n := ReadUint(W64, bytes).value;
      if s.TSeq? {
        RepeatedNoShorter(s.inner, n.value, n.rest);
      } else {
        PairsNoShorter(s.key, s.val, n.value, n.rest);
      }
    }
  }

  // --- Field order -----------------------------------------------------------------------------

  /** Variant names are distinct, at every depth. */
  predicate Named(s: Schema)
    decreases s
  {
    match s
    case TOption(inner) => Named(inner)
    case TNewtype(inner) => Named(inner)
    case TTuple(elems) => forall i | 0 <= i < |elems| :: Named(elems[i])
    case TTupleStruct(elems) => forall i | 0 <= i < |elems| :: Named(elems[i])
    case TStruct(types) => forall i | 0 <= i < |types| :: Named(types[i].ty)
    case TEnum(variants) => DistinctVariants(variants) && forall i | 0 <= i < |variants| ::
        NamedShape(variants[i].shape)
    case _ => true
  }

  predicate NamedShape(shape: Shape)
    decreases shape
  {
    match shape
    case NewtypeShape(ty) => Named(ty)
    case TupleShape(elems) => forall i | 0 <= i < |elems| :: Named(elems[i])
    case _ => true
  }

  /** The step read `v` and took no more bytes than the encoder would write for it. */
  ghost predicate Tight(r: Step<Value>, v: Value, bytes: seq<Byte>) {
    r.Success? && Canon(r.value.value) == v && |Serialize(v)| + |r.value.rest| == |bytes|
  }

  ghost predicate TightAll(r: Step<seq<Value>>, items: seq<Value>, bytes: seq<Byte>) {
    r.Success? && CanonAll(r.value.value) == items && |SerializeAll(items)| + |r.value.rest| == |bytes|
  }

  ghost predicate TightFields(r: Step<seq<Field>>, fields: seq<Field>, bytes: seq<Byte>) {
    r.Success? && CanonFields(r.value.value) == fields && |SerializeFields(fields)| + |r.value.rest| == |bytes|
  }

  lemma {:induction false} PrimitiveTight(s: Schema, v: Value, bytes: seq<Byte>)
    requires s.TUint? || s.TSint? || s.TUsize? || s.TIsize? || s.TBool? || s.TChar? || s.TBytes? || s.TUnit?
    requires Tight(Decode(s, bytes), v, bytes)
    ensures bytes == Serialize(v) + Decode(s, bytes).value.rest
  {
    hide ReadUint, ReadSint, WriteUint, WriteSint, Varint, ReadChar, WriteChar;
    match s
    case TUint(w) => UintUnique(w, bytes);
    case TSint(w) => SintUnique(w, bytes);
    case TUsize => UintUnique(W64, bytes);
    case TIsize => SintUnique(W64, bytes);
    case TChar => CharIsShortest(bytes);
    case TBytes => BytesTight(bytes);
    case TBool => assert bytes == [bytes[0]] + bytes[1..];
    case TUnit =>
  }

  lemma BytesTight(bytes: seq<Byte>)
    requires ReadBytes(bytes).Success?
    requires var i := ReadBytes(bytes).value; |Varint(|i.value|) + i.value| + |i.rest| == |bytes|
    ensures var i := ReadBytes(bytes).value; bytes == Varint(|i.value|) + i.value + i.rest
  {
    hide ReadUint, Varint;
    var n := ReadUint(W64, bytes).value;
    assert WriteUint(W64, n.value) == Varint(n.value);
    assert n.rest == n.rest[..n.value] + n.rest[n.value..];
    UintUnique(W64, bytes);
  }

  /** The length matters: a small number reads back from two bytes as well as from the one the encoder writes. */
  lemma {:induction false} OverlongReads(w: Width, n: nat, rest: seq<Byte>)
    requires w != W8 && n < 128
    ensures Decode(TUint(w), [ByteOf(n + 128), ByteOf(0)] + rest) == Success(Item(Uint(w, n), rest))
    ensures Serialize(Uint(w, n)) == [ByteOf(n)]
  {
    hide ByteOf, ValueOf;
    var bytes := [ByteOf(n + 128), ByteOf(0)] + rest;
    assert bytes[1..] == [ByteOf(0)] + rest && bytes[1..][1..] == rest;
    assert ReadVarint(MaxBytes(w) - 1, LastByte(w), bytes[1..]) == Success(Item(0, rest));
    assert ReadUint(w, bytes) == Success(Item(n, rest));
  }

  /** A tight reading of a value the encoder can write has read exactly what the encoder writes. */
  lemma {:induction false} DecodeTight(s: Schema, v: Value, bytes: seq<Byte>)
    requires Named(s) && Exact(s, v) && Tight(Decode(s, bytes), v, bytes)
    ensures bytes == Serialize(v) + Decode(s, bytes).value.rest
    decreases s, 1
  {
    hide ReadUint, ReadSint, WriteUint, WriteSint, Varint, ReadBytes, ReadChar, WriteChar, DecodeTuple, DecodeFields,
         DecodeShape, DecodeRepeated, DecodePairs, SerializeAll, SerializeFields, ExactAll, ExactFields, ExactShape,
         Fits;
    match s
    case TOption(inner) =>
      assert bytes == [bytes[0]] + bytes[1..];
      if v.Present? { DecodeTight(inner, v.inner, bytes[1..]); }
    case TNewtype(inner) => DecodeTight(inner, v, bytes);
    case TTuple(elems) => TupleTight(elems, v.items, bytes);
    case TTupleStruct(elems) => TupleTight(elems, v.items, bytes);
    case TStruct(types) => FieldsTight(types, v.fields, bytes);
    case TEnum(variants) => VariantTight(variants, v, bytes);
    case _ => PrimitiveTight(s, v, bytes);
  }

  lemma {:induction false} TupleTight(elems: seq<Schema>, items: seq<Value>, bytes: seq<Byte>)
    requires ExactAll(elems, items) && (forall i | 0 <= i < |elems| :: Named(elems[i]))
    requires TightAll(DecodeTuple(elems, bytes), items, bytes)
    ensures bytes == SerializeAll(items) + DecodeTuple(elems, bytes).value.rest
    decreases elems, 0
  {
    hide Decode, Exact, Serialize, Named, Canon, CanonAll;
    if elems != [] {
      var n := |elems| - 1;
      var front := DecodeTuple(elems[..n], bytes).value;
      var last := Decode(elems[n], front.rest).value;
      LastCanon(front.value, last.value, items);
      TupleNoShorter(elems[..n], bytes);
      DecodeNoShorter(elems[n], front.rest);
      TupleTight(elems[..n], items[..n], bytes);
      DecodeTight(elems[n], items[n], front.rest);
    }
  }

  lemma {:induction false} LastCanon(front: seq<Value>, x: Value, items: seq<Value>)
    requires CanonAll(front + [x]) == items
    ensures |items| == |front| + 1 && CanonAll(front) == items[..|front|] && Canon(x) == items[|front|]
  {
    hide Canon, CanonAll;
    forall i | 0 <= i < |front| ensures CanonAll(front)[i] == items[i] {
      assert items[i] == Canon((front + [x])[i]);
    }
  }

  lemma {:induction false} FieldsTight(types: seq<FieldType>, fields: seq<Field>, bytes: seq<Byte>)
    requires ExactFields(types, fields) && (forall i | 0 <= i < |types| :: Named(types[i].ty))
    requires TightFields(DecodeFields(types, bytes), fields, bytes)
    ensures bytes == SerializeFields(fields) + DecodeFields(types, bytes).value.rest
    decreases types, 0
  {
    hide Decode, Exact, Serialize, Named, Canon, CanonFields, Insert, ExactFields, IndexOf;
    ExactFront(types, fields);
    if types != [] {
      var n := |types| - 1;
      var front := DecodeFields(types[..n], bytes).value;
      var last := Decode(types[n].ty, front.rest).value;
      DecodedNames(types[..n], bytes, types[n].name);
      LastField(front.value, types[n].name, last.value, fields);
      FieldsNoShorter(types[..n], bytes);
      DecodeNoShorter(types[n].ty, front.rest);
      FieldsTight(types[..n], fields[..n], bytes);
      DecodeTight(types[n].ty, fields[n].value, front.rest);
    }
  }

  lemma {:induction false} ExactFront(types: seq<FieldType>, fields: seq<Field>)
    requires ExactFields(types, fields)
    ensures |types| == |fields|
    ensures types != [] ==>
              var n := |types| - 1;
              && ExactFields(types[..n], fields[..n]) && Exact(types[n].ty, fields[n].value)
              && forall i | 0 <= i < n :: types[..n][i].name != types[n].name
  {
    hide Exact;
  }

  lemma {:induction false} LastField(front: seq<Field>, name: string, x: Value, fields: seq<Field>)
    requires CanonFields(Insert(front, name, x)) == fields && IndexOf(front, name).None?
    ensures |fields| == |front| + 1 && CanonFields(front) == fields[..|front|] && Canon(x) == fields[|front|].value
  {
    hide Canon, CanonFields;
    var all := Insert(front, name, x);
    forall i | 0 <= i < |front| ensures CanonFields(front)[i] == fields[i] {
      assert fields[i] == Field(all[i].name, Canon(all[i].value));
    }
  }

  lemma {:induction false} DecodedNames(types: seq<FieldType>, bytes: seq<Byte>, name: string)
    requires DecodeFields(types, bytes).Success? && forall i | 0 <= i < |types| :: types[i].name != name
    ensures IndexOf(DecodeFields(types, bytes).value.value, name).None?
  {
    hide Decode;
    if types != [] {
      var n := |types| - 1;
      DecodedNames(types[..n], bytes, name);
      var front := DecodeFields(types[..n], bytes).value;
      InsertOther(front.value, types[n].name, Decode(types[n].ty, front.rest).value.value, name);
    }
  }

  lemma {:induction false} InsertOther(front: seq<Field>, name: string, x: Value, other: string)
    requires name != other && IndexOf(front, other).None?
    ensures IndexOf(Insert(front, name, x), other).None?
  {
  }

  /** A decoded variant that matches its schema was read at the index the encoder writes for it. */
  lemma {:induction false} VariantIndex(variants: seq<Variant>, v: Value, bytes: seq<Byte>)
    requires DistinctVariants(variants) && Exact(TEnum(variants), v)
    requires Decode(TEnum(variants), bytes).Success? && Canon(Decode(TEnum(variants), bytes).value.value) == v
    ensures var n := ReadUint(W32, bytes);
            && n.Success? && n.value.value == (if v.Err? then 1 else 0) && n.value.value < |variants|
            && var p := DecodeShape(variants[n.value.value].shape, n.value.rest);
               && p.Success? && IsVariant(v) && CanonAll(p.value.value) == PayloadOf(v)
               && Decode(TEnum(variants), bytes).value.rest == p.value.rest
               && ExactShape(variants[n.value.value].shape, PayloadOf(v))
  {
    hide ReadUint, DecodeShape, ExactShape;
    var n := ReadUint(W32, bytes).value;
    var p := DecodeShape(variants[n.value].shape, n.rest).value;
    assert n.value == if v.Err? then 1 else 0;
    if !v.Enum? { NewtypeExact(variants[n.value].shape, v.inner); }
  }

  lemma {:induction false} VariantSerializes(v: Value)
    requires IsVariant(v)
    ensures Serialize(v) == Varint(if v.Err? then 1 else 0) + SerializeAll(PayloadOf(v))
  {
    hide Varint;
    if !v.Enum? { OneSerialized([v.inner]); }
  }

  lemma {:induction false} VariantTight(variants: seq<Variant>, v: Value, bytes: seq<Byte>)
    requires Named(TEnum(variants)) && Exact(TEnum(variants), v) && Tight(Decode(TEnum(variants), bytes), v, bytes)
    ensures bytes == Serialize(v) + Decode(TEnum(variants), bytes).value.rest
    decreases variants, 1
  {
    hide ReadUint, Varint, DecodeShape, SerializeAll, ExactShape, NamedShape, Exact, Decode, Canon, Serialize;
    VariantIndex(variants, v, bytes);
    VariantSerializes(v);
    var n := ReadUint(W32, bytes).value;
    var shape := variants[n.value].shape;
    LengthIsShortest(W32, bytes);
    SmallVarints();
    ShapeNoShorter(shape, n.rest);
    ShapeTight(shape, PayloadOf(v), n.rest);
    assert WriteUint(W32, n.value) == Varint(n.value);
    UintUnique(W32, bytes);
    SplitOff(Varint(n.value), SerializeAll(PayloadOf(v)), DecodeShape(shape, n.rest).value.rest);
  }

  lemma {:induction false} NewtypeExact(shape: Shape, x: Value)
    requires shape.NewtypeShape? && Exact(shape.ty, x)
    ensures ExactShape(shape, [x])
  {
  }

  lemma {:induction false} ShapeTight(shape: Shape, payload: seq<Value>, bytes: seq<Byte>)
    requires NamedShape(shape) && ExactShape(shape, payload) && TightAll(DecodeShape(shape, bytes), payload, bytes)
    ensures bytes == SerializeAll(payload) + DecodeShape(shape, bytes).value.rest
    decreases shape, 1
  {
    hide DecodeTuple, Decode, Exact, ExactAll, Named, Serialize, SerializeFields;
    match shape
    case UnitShape =>
    case NewtypeShape(ty) =>
      OneSerialized(payload);
      DecodeTight(ty, payload[0], bytes);
    case TupleShape(elems) => TupleTight(elems, payload, bytes);
    case StructShape(types) =>
      OneSerialized(payload);
      StructSerializes([]);
  }

  /**
   What the encoder passes through unresolved: newtype contents, tuple struct elements, variant payloads.
   Such a value, as long on the wire as the ordered one, decodes to the ordered one if and only if the
   two have the same bytes.
   */
  lemma {:induction false} PassedThroughIff(s: Schema, passed: Value, ordered: Value)
    requires Named(s) && Exact(s, ordered) && |Serialize(passed)| == |Serialize(ordered)|
    ensures Decoded(s, Serialize(passed)) == Success(ordered) <==> Serialize(passed) == Serialize(ordered)
  {
    hide Named, Exact, Serialize, Decode, Canon;
    var bytes := Serialize(passed);
    if bytes == Serialize(ordered) {
      ExactDecodes(s, ordered, []);
      assert bytes + [] == bytes;
    }
    if Decoded(s, bytes) == Success(ordered) {
      DecodeNoShorter(s, bytes);
      DecodeTight(s, ordered, bytes);
      assert Decode(s, bytes).value.rest == [];
    }
  }

  /** The caller's fields in some other order. */
  ghost predicate Reordered(fields: seq<Field>, ordered: seq<Field>) {
    multiset(fields) == multiset(ordered)
  }

  lemma {:induction false} ReorderedLength(a: seq<Field>, b: seq<Field>)
    requires Reordered(a, b)
    ensures |SerializeFields(a)| == |SerializeFields(b)|
    decreases |a|
  {
    hide Serialize, Reordered;
    if a == [] {
      ReorderedEmpty(b);
    } else {
      var i := ReorderedLast(a, b);
      ReorderedLength(a[..|a| - 1], b[..i] + b[i + 1..]);
      DropLength(b, i);
    }
  }

  lemma ReorderedEmpty(b: seq<Field>)
    requires Reordered([], b)
    ensures b == []
  {
    assert |multiset(b)| == |b|;
  }

  lemma ReorderedLast(a: seq<Field>, b: seq<Field>) returns (i: nat)
    requires Reordered(a, b) && a != []
    ensures i < |b| && b[i] == a[|a| - 1] && Reordered(a[..|a| - 1], b[..i] + b[i + 1..])
  {
    var n := |a| - 1;
    assert a == a[..n] + [a[n]];
    assert a[n] in multiset(b);
    i :| 0 <= i < |b| && b[i] == a[n];
    DropOne(b, i);
    assert multiset(a[..n]) == multiset(a) - multiset{a[n]};
  }

  lemma DropOne(b: seq<Field>, i: nat)
    requires i < |b|
    ensures multiset(b[..i] + b[i + 1..]) == multiset(b) - multiset{b[i]}
  {
    assert b == b[..i] + [b[i]] + b[i + 1..];
  }

  lemma {:induction false} DropLength(b: seq<Field>, i: nat)
    requires i < |b|
    ensures |SerializeFields(b)| == |SerializeFields(b[..i] + b[i + 1..])| + |Serialize(b[i].value)|
  {
    hide Serialize;
    var n := |b| - 1;
    var rest := b[..i] + b[i + 1..];
    if i == n {
      assert rest == b[..n];
    } else {
      DropLength(b[..n], i);
      assert rest[..|rest| - 1] == b[..n][..i] + b[..n][i + 1..];
      assert rest[|rest| - 1] == b[n];
    }
  }

  /**
   Struct fields in another order than the schema's, for any struct schema. As a plain struct they reach
   the wire in schema order. Inside a newtype, a tuple struct or a variant's payload they do not: there
   the decoded value is the ordered one if and only if both orders happen to have the same bytes.
   */
  lemma {:induction false} CallerOrderIff(types: seq<FieldType>, fields: seq<Field>, ordered: seq<Field>, name: string)
    requires Named(TStruct(types)) && ExactFields(types, ordered) && Reordered(fields, ordered)
             && DistinctFields(fields)
    requires name != "Ok" && name != "Err"
    ensures var v, w, s := Struct(fields), Struct(ordered), TStruct(types);
            var variants := [Variant(name, NewtypeShape(s))];
            var same := Serialize(v) == Serialize(w);
            && Encode(s, v) == Encode(s, w)
            && (Decoded(TNewtype(s), Encode(TNewtype(s), v).value) == Success(w) <==> same)
            && (Decoded(TTupleStruct([s]), Encode(TTupleStruct([s]), Tuple([v])).value) == Success(Tuple([w])) <==>
                same)
            && (Decoded(TEnum(variants), Encode(TEnum(variants), Enum(name, [v])).value) == Success(Enum(name, [w]))
                <==> same)
  {
    hide Serialize, SerializeAll, SerializeFields, Named, Exact, Decoded, Get, ResolveFields, Decimal, ExactFields,
         Varint, ResultShaped;
    var v, w, s := Struct(fields), Struct(ordered), TStruct(types);
    ReorderedLength(fields, ordered);
    StructSerializes(fields);
    StructSerializes(ordered);
    StructIsExact(types, ordered);
    SameWhenReordered(types, fields, ordered);
    WrappersExact(s, w, name);
    PassedThroughIff(TNewtype(s), v, w);
    TupleOfOne(v);
    TupleOfOne(w);
    PassedThroughIff(TTupleStruct([s]), Tuple([v]), Tuple([w]));
    var variants := [Variant(name, NewtypeShape(s))];
    VariantOfOne(name, v);
    VariantOfOne(name, w);
    PassedThroughIff(TEnum(variants), Enum(name, [v]), Enum(name, [w]));
    FindsVariant(variants, 0);
    VariantBytes(variants, name, v);
    PrefixCancels(Varint(0), Serialize(v), Serialize(w));
  }

  lemma PrefixCancels(p: seq<Byte>, a: seq<Byte>, b: seq<Byte>)
    ensures p + a == p + b <==> a == b
  {
    assert (p + a)[|p|..] == a && (p + b)[|p|..] == b;
  }

  lemma {:induction false} StructIsExact(types: seq<FieldType>, ordered: seq<Field>)
    requires ExactFields(types, ordered)
    ensures Exact(TStruct(types), Struct(ordered))
  {
  }

  lemma {:induction false} WrappersExact(s: Schema, w: Value, name: string)
    requires Named(s) && Exact(s, w) && name != "Ok" && name != "Err"
    ensures Named(TNewtype(s)) && Exact(TNewtype(s), w)
    ensures Named(TTupleStruct([s])) && Exact(TTupleStruct([s]), Tuple([w]))
    ensures var variants := [Variant(name, NewtypeShape(s))];
            Named(TEnum(variants)) && Exact(TEnum(variants), Enum(name, [w]))
  {
  }

  lemma {:induction false} TupleOfOne(v: Value)
    ensures Serialize(Tuple([v])) == Serialize(v)
  {
    OneSerialized([v]);
  }

  lemma {:induction false} VariantOfOne(name: string, v: Value)
    ensures Serialize(Enum(name, [v])) == Varint(0) + Serialize(v)
  {
    hide Varint;
    OneSerialized([v]);
  }

  /** The looked-up name is not part of the bytes. */
  lemma {:induction false} VariantBytes(variants: seq<Variant>, name: string, v: Value)
    requires FindVariant(variants, name).Some?
    ensures Encode(TEnum(variants), Enum(name, [v])) == Success(Serialize(Enum(name, [v])))
  {
    hide Varint, SerializeAll, Decimal, FindVariant;
  }

  lemma {:induction false} SameWhenReordered(types: seq<FieldType>, fields: seq<Field>, ordered: seq<Field>)
    requires ExactFields(types, ordered) && Reordered(fields, ordered) && DistinctFields(fields)
    ensures Encode(TStruct(types), Struct(fields)) == Encode(TStruct(types), Struct(ordered))
  {
    hide Get, Resolve, Exact, Serialize;
    forall t | t in types ensures Get(fields, t.name) == Get(ordered, t.name) {
      SameLookup(fields, ordered, t.name);
    }
    OrderIgnored(types, fields, ordered);
    StructResolves(types, fields);
    StructResolves(types, ordered);
  }

  lemma {:induction false} StructResolves(types: seq<FieldType>, fields: seq<Field>)
    ensures Resolve(TStruct(types), Struct(fields)) ==
            var r := ResolveFields(types, fields); if r.Failure? then Failure(r.error) else Success(Struct(r.value))
  {
    hide ResolveFields;
  }

  lemma SameLookup(a: seq<Field>, b: seq<Field>, name: string)
    requires DistinctFields(a) && DistinctFields(b) && Reordered(a, b)
    ensures Get(a, name) == Get(b, name)
  {
    hide Get;
    assert forall f :: f in a <==> f in multiset(a);
    assert forall f :: f in b <==> f in multiset(b);
    if Get(a, name).Some? {
      GetIff(a, name, Get(a, name).value);
      GetIff(b, name, Get(a, name).value);
    } else if Get(b, name).Some? {
      GetIff(b, name, Get(b, name).value);
      GetIff(a, name, Get(b, name).value);
    }
  }

  lemma {:induction false} StructSerializes(fields: seq<Field>)
    ensures Serialize(Struct(fields)) == SerializeFields(fields) && SerializeFields([]) == []
  {
  }

  /** Struct fields reach the wire in schema order, whatever order the caller used. */
  lemma {:induction false} OrderIgnored(types: seq<FieldType>, a: seq<Field>, b: seq<Field>)
    requires forall t | t in types :: Get(a, t.name) == Get(b, t.name)
    ensures ResolveFields(types, a) == ResolveFields(types, b) && ResolveArgs(types, a) == ResolveArgs(types, b)
  {
    hide Resolve, Get, Insert;
    if types != [] {
      OrderIgnored(types[..|types| - 1], a, b);
      assert types[|types| - 1] in types;
    }
  }
}
