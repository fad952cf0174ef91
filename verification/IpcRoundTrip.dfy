/** What the encoder writes is what the decoder reads, and exactly where it is not. */
module IpcRoundTrip {
  import opened Wrappers
  import opened Postcard
  import opened IpcValue
  import opened IpcDecode
  import opened IpcEncode
  import opened IpcWire

  // --- Values that match a schema field by field -----------------------------------------------

  /** `v` has the shape of `s`, with struct fields in schema order and only first variants. */
  predicate Exact(s: Schema, v: Value)
    decreases s, 1
  {
    match s
    case TOption(inner) => v.Absent? || (v.Present? && Exact(inner, v.inner))
    case TNewtype(inner) => Exact(inner, v)
    case TTuple(elems) => v.Tuple? && ExactAll(elems, v.items)
    case TTupleStruct(elems) => v.Tuple? && ExactAll(elems, v.items)
    case TStruct(types) => v.Struct? && ExactFields(types, v.fields)
    case TEnum(variants) =>
      if v.Ok? then
        |variants| > 0 && variants[0].name == "Ok" && variants[0].shape.NewtypeShape?
            && Exact(variants[0].shape.ty, v.inner)
      else if v.Err? then
        && |variants| > 1 && variants[0].name != "Err" && variants[1].name == "Err"
        && variants[1].shape.NewtypeShape? && Exact(variants[1].shape.ty, v.inner)
      else
        && v.Enum? && |variants| > 0 && v.variant == variants[0].name && ExactShape(variants[0].shape, v.payload)
        && Readable(variants[0].shape) && !ResultShaped(v.variant, v.payload)
    case TSeq(_) => false
    case TMap(_, _) => false
    case _ => Fits(s, v)
  }

  predicate ExactAll(elems: seq<Schema>, items: seq<Value>)
    decreases elems, 0
  {
    |elems| == |items| && forall i | 0 <= i < |elems| :: Exact(elems[i], items[i])
  }

  predicate ExactFields(types: seq<FieldType>, fields: seq<Field>)
    decreases types, 0
  {
    && |types| == |fields| && DistinctFields(fields)
    && forall i | 0 <= i < |types| :: types[i].name == fields[i].name && Exact(types[i].ty, fields[i].value)
  }

  predicate ExactShape(shape: Shape, payload: seq<Value>)
    decreases shape, 0
  {
    match shape
    case UnitShape => payload == []
    case NewtypeShape(ty) => |payload| == 1 && Exact(ty, payload[0])
    case TupleShape(elems) => ExactAll(elems, payload)
    case StructShape(types) => |payload| == 1 && payload[0].Struct? && ExactFields(types, payload[0].fields)
  }

  /** The decoder offers a struct variant no fields, so it can read only one that has none. */
  predicate Readable(shape: Shape) {
    shape.StructShape? ==> shape.fields == []
  }

  lemma {:induction false} OneSerialized(payload: seq<Value>)
    requires |payload| == 1
    ensures SerializeAll(payload) == Serialize(payload[0])
  {
    assert payload[..0] == [];
  }

  /** On these values the encoder writes what the device's own serializer writes. */
  lemma {:induction false} ExactIsWire(s: Schema, v: Value)
    requires Exact(s, v)
    ensures Fits(s, v) && Wire(s, v) == Serialize(v)
    decreases s, 2
  {
    hide Bound, InRange, WriteUint, WriteSint, Varint, WriteChar, ExactAll, ExactFields, ExactShape, FitsAll,
         FitsFields, FitsShape, WireAll, WireFields, WireShape, SerializeAll, SerializeFields, FindVariant,
         WireRepeated, WirePairs;
    match s
    case TOption(inner) => if v.Present? { ExactIsWire(inner, v.inner); }
    case TNewtype(inner) => ExactIsWire(inner, v);
    case TTuple(elems) => AllAreWire(elems, v.items);
    case TTupleStruct(elems) => AllAreWire(elems, v.items);
    case TStruct(types) => FieldsAreWire(types, v.fields);
    case TEnum(variants) => VariantIsWire(variants, v);
    case _ =>
  }

  lemma {:induction false} VariantIsWire(variants: seq<Variant>, v: Value)
    requires Exact(TEnum(variants), v)
    ensures Fits(TEnum(variants), v) && Wire(TEnum(variants), v) == Serialize(v)
    decreases variants, 1
  {
    hide Varint, ExactShape, FitsShape, WireShape, SerializeAll;
    FindsEarly(variants, VariantName(v));
    if v.Enum? {
      ShapeIsWire(variants[0].shape, v.payload);
    } else {
      var k := if v.Ok? then 0 else 1;
      ExactIsWire(variants[k].shape.ty, v.inner);
      NewtypeIsWire(variants[k].shape, v.inner);
    }
  }

  lemma {:induction false} FindsEarly(variants: seq<Variant>, name: string)
    ensures |variants| > 0 && variants[0].name == name ==> FindVariant(variants, name) == Some(0)
    ensures |variants| > 1 && variants[0].name != name && variants[1].name == name ==>
            FindVariant(variants, name) == Some(1)
  {
  }

  lemma {:induction false} NewtypeIsWire(shape: Shape, x: Value)
    requires shape.NewtypeShape? && Fits(shape.ty, x)
    ensures FitsShape(shape, [x]) && WireShape(shape, [x]) == Wire(shape.ty, x)
  {
    hide Fits, Wire;
  }

  lemma {:induction false} ShapeIsWire(shape: Shape, payload: seq<Value>)
    requires ExactShape(shape, payload) && Readable(shape)
    ensures FitsShape(shape, payload) && WireShape(shape, payload) == SerializeAll(payload)
    decreases shape, 1
  {
    hide Fits, Wire, Exact, FitsAll, WireAll, ExactAll;
    match shape
    case UnitShape =>
    case NewtypeShape(ty) =>
      ExactIsWire(ty, payload[0]);
      OneSerialized(payload);
    case TupleShape(elems) => AllAreWire(elems, payload);
    case StructShape(types) =>
      assert payload[0].fields == [];
      OneSerialized(payload);
  }

  lemma {:induction false} AllAreWire(elems: seq<Schema>, items: seq<Value>)
    requires ExactAll(elems, items)
    ensures FitsAll(elems, items) && WireAll(elems, items) == SerializeAll(items)
    decreases elems, 0
  {
    hide Fits, Wire, Exact, Serialize;
    forall i | 0 <= i < |elems| ensures Fits(elems[i], items[i]) { ExactIsWire(elems[i], items[i]); }
    if elems != [] {
      var n := |elems| - 1;
      AllAreWire(elems[..n], items[..n]);
      ExactIsWire(elems[n], items[n]);
    }
  }

  lemma {:induction false} FieldsAreWire(types: seq<FieldType>, fields: seq<Field>)
    requires ExactFields(types, fields)
    ensures FitsFields(types, fields) && WireFields(types, fields) == SerializeFields(fields)
    decreases types, 0
  {
    hide Fits, Wire, Exact, Serialize;
    forall i | 0 <= i < |types|
        ensures Fits(types[i].ty, fields[i].value) { ExactIsWire(types[i].ty, fields[i].value); }
    if types != [] {
      var n := |types| - 1;
      FieldsAreWire(types[..n], fields[..n]);
      ExactIsWire(types[n].ty, fields[n].value);
    }
  }

  /** A value that matches its schema is read back whole, and nothing behind it is touched. */
  lemma {:induction false} ExactDecodes(s: Schema, v: Value, rest: seq<Byte>)
    requires Exact(s, v)
    ensures Reads(Decode(s, Serialize(v) + rest), v, rest)
  {
    ExactIsWire(s, v);
    WireDecodes(s, v, rest);
  }

  // --- What the caller may pass -----------------------------------------------------------------

  /**
   Values that have the type `s`: struct fields in any order, extra fields and extra tuple items, bare
   values for options. Newtypes, tuple structs and variant payloads are taken as they are. The encoder
   also takes leaves of the wrong type, and writes them as what they are.
   */
  predicate WellTyped(s: Schema, v: Value)
    decreases s
  {
    match s
    case TOption(inner) => v.Absent? || WellTyped(inner, if v.Present? then v.inner else v)
    case TTuple(elems) => v.Tuple? && |elems| <= |v.items| && forall i | 0 <= i < |elems| ::
        WellTyped(elems[i], v.items[i])
    case TStruct(types) =>
      && v.Struct? && DistinctTypes(types)
      && forall i | 0 <= i < |types| ::
          Get(v.fields, types[i].name).Some? && WellTyped(types[i].ty, Get(v.fields, types[i].name).value)
    case _ => Exact(s, v)
  }

  predicate DistinctTypes(types: seq<FieldType>) {
    forall i, j | 0 <= i < j < |types| :: types[i].name != types[j].name
  }

  /** The value in schema order. */
  function Ordered(s: Schema, v: Value): Value
    requires WellTyped(s, v)
    decreases s
  {
    match s
    case TOption(inner) => if v.Absent? then v else Present(Ordered(inner, if v.Present? then v.inner else v))
    case TTuple(elems) => Tuple(seq(|elems|, i requires 0 <= i < |elems| => Ordered(elems[i], v.items[i])))
    case TStruct(types) =>
      Struct(seq(|types|, i requires 0 <= i < |types| =>
        Field(types[i].name, Ordered(types[i].ty, Get(v.fields, types[i].name).value))))
    case _ => v
  }

  lemma {:induction false} OrderedIsExact(s: Schema, v: Value)
    requires WellTyped(s, v)
    ensures Exact(s, Ordered(s, v))
    decreases s
  {
    hide Get, Fits, ExactShape;
    match s
    case TOption(inner) => if !v.Absent? { OrderedIsExact(inner, if v.Present? then v.inner else v); }
    case TTuple(elems) =>
      forall i | 0 <= i < |elems|
          ensures Exact(elems[i], Ordered(elems[i], v.items[i])) { OrderedIsExact(elems[i], v.items[i]); }
    case TStruct(types) =>
      forall i | 0 <= i < |types|
        ensures Exact(types[i].ty, Ordered(types[i].ty, Get(v.fields, types[i].name).value))
      {
        OrderedIsExact(types[i].ty, Get(v.fields, types[i].name).value);
      }
    case _ =>
  }

  /** A value already in schema order is its own ordering. */
  lemma {:induction false} ExactIsOrdered(s: Schema, v: Value)
    requires Exact(s, v)
    ensures WellTyped(s, v) && Ordered(s, v) == v
    decreases s
  {
    hide Get, Fits, ExactShape;
    match s
    case TOption(inner) => if !v.Absent? { ExactIsOrdered(inner, v.inner); }
    case TTuple(elems) =>
      forall i | 0 <= i < |elems|
          ensures WellTyped(elems[i], v.items[i]) && Ordered(elems[i], v.items[i]) == v.items[i] {
        ExactIsOrdered(elems[i], v.items[i]);
      }
    case TStruct(types) =>
      forall i | 0 <= i < |types|
        ensures Get(v.fields, types[i].name) == Some(v.fields[i].value)
        ensures WellTyped(types[i].ty, v.fields[i].value)
                && Ordered(types[i].ty, v.fields[i].value) == v.fields[i].value
      {
        GetAt(v.fields, i);
        ExactIsOrdered(types[i].ty, v.fields[i].value);
      }
    case _ =>
  }

  /** Resolving succeeds on every well-typed value, with the bytes of the ordered value. */
  lemma {:induction false} ResolvesToOrdered(s: Schema, v: Value)
    requires WellTyped(s, v)
    ensures Resolve(s, v).Success? && Serialize(Resolve(s, v).value) == Serialize(Ordered(s, v))
    decreases s
  {
    hide Get, Exact, Fits, ResolveFields, ResolveZip, Serialize;
    match s
    case TOption(inner) => if !v.Absent? {
        ResolvesToOrdered(inner, if v.Present? then v.inner else v);
        SerializePresent(Resolve(inner, if v.Present? then v.inner else v).value);
        SerializePresent(Ordered(inner, if v.Present? then v.inner else v));
      }
    case TTuple(elems) =>
      ZipResolves(elems, |elems|, v);
      assert elems[..|elems|] == elems;
      assert Ordered(s, v).items[..|elems|] == Ordered(s, v).items;
      SerializeTuple(ResolveZip(elems, v.items).value);
      SerializeTuple(Ordered(s, v).items);
    case TStruct(types) =>
      FieldsResolve(types, |types|, v);
      assert types[..|types|] == types;
      assert Ordered(s, v).fields[..|types|] == Ordered(s, v).fields;
      SerializeStruct(ResolveFields(types, v.fields).value);
      SerializeStruct(Ordered(s, v).fields);
    case _ => LeafResolves(s, v);
  }

  lemma {:induction false} SerializePresent(x: Value)
    ensures Serialize(Present(x)) == [1] + Serialize(x)
  {
  }

  lemma {:induction false} SerializeTuple(items: seq<Value>)
    ensures Serialize(Tuple(items)) == SerializeAll(items)
  {
  }

  lemma {:induction false} SerializeStruct(fields: seq<Field>)
    ensures Serialize(Struct(fields)) == SerializeFields(fields)
  {
  }

  lemma {:induction false} LeafResolves(s: Schema, v: Value)
    requires Exact(s, v) && !s.TOption? && !s.TTuple? && !s.TStruct?
    ensures Resolve(s, v).Success? && Serialize(Resolve(s, v).value) == Serialize(v)
  {
    hide Fits, ExactShape, SerializeAll, Varint, Decimal;
  }

  lemma {:induction false} ZipResolves(elems: seq<Schema>, n: nat, v: Value)
    requires WellTyped(TTuple(elems), v) && n <= |elems|
    ensures var r := ResolveZip(elems[..n], v.items);
            r.Success? && SerializeAll(r.value) == SerializeAll(Ordered(TTuple(elems), v).items[..n])
    decreases elems, n
  {
    hide Resolve, Serialize, Exact, Fits;
    var ordered := Ordered(TTuple(elems), v).items;
    if n > 0 {
      ZipResolves(elems, n - 1, v);
      ResolvesToOrdered(elems[n - 1], v.items[n - 1]);
      assert elems[..n][..n - 1] == elems[..n - 1];
      assert ordered[..n][..n - 1] == ordered[..n - 1];
    }
  }

  lemma {:induction false} FieldsResolve(types: seq<FieldType>, n: nat, v: Value)
    requires WellTyped(TStruct(types), v) && n <= |types|
    ensures var r := ResolveFields(types[..n], v.fields);
            && r.Success? && |r.value| == n && (forall i | 0 <= i < n :: r.value[i].name == types[i].name)
            && SerializeFields(r.value) == SerializeFields(Ordered(TStruct(types), v).fields[..n])
    decreases types, n
  {
    hide Resolve, Serialize, Get, Insert, SerializeFields, Exact, Fits;
    var ordered := Ordered(TStruct(types), v).fields;
    if n > 0 {
      FieldsResolve(types, n - 1, v);
      ResolvesToOrdered(types[n - 1].ty, Get(v.fields, types[n - 1].name).value);
      assert types[..n][..n - 1] == types[..n - 1];
      assert ordered[..n] == ordered[..n - 1] + [ordered[n - 1]];
      var front := ResolveFields(types[..n - 1], v.fields).value;
      var x := Resolve(types[n - 1].ty, Get(v.fields, types[n - 1].name).value).value;
      InsertNew(front, types[n - 1].name, x);
      SerializeSnoc(ordered[..n - 1], ordered[n - 1]);
    } else {
      assert types[..0] == [] && ordered[..0] == [];
    }
  }

  lemma {:induction false} InsertNew(front: seq<Field>, name: string, x: Value)
    requires forall i | 0 <= i < |front| :: front[i].name != name
    ensures Insert(front, name, x) == front + [Field(name, x)]
    ensures SerializeFields(Insert(front, name, x)) == SerializeFields(front) + Serialize(x)
  {
    SerializeSnoc(front, Field(name, x));
  }

  lemma {:induction false} SerializeSnoc(front: seq<Field>, f: Field)
    ensures SerializeFields(front + [f]) == SerializeFields(front) + Serialize(f.value)
  {
    assert (front + [f])[..|front|] == front;
  }

  /** Encoding then decoding gives the value in schema order and leaves exactly what followed it. */
  lemma {:induction false} RoundTrip(s: Schema, v: Value, rest: seq<Byte>)
    requires WellTyped(s, v)
    ensures Encode(s, v).Success? && Reads(Decode(s, Encode(s, v).value + rest), Ordered(s, v), rest)
  {
    OrderedIsExact(s, v);
    ResolvesToOrdered(s, v);
    ExactDecodes(s, Ordered(s, v), rest);
  }

  /** Values that differ only in what ordering undoes, at any depth, have the same bytes. */
  lemma {:induction false} EqualOrderedEncodeAlike(s: Schema, v: Value, w: Value)
    requires WellTyped(s, v) && WellTyped(s, w) && Ordered(s, v) == Ordered(s, w)
    ensures Encode(s, v) == Encode(s, w)
  {
    hide WellTyped, Ordered, Resolve, Serialize;
    ResolvesToOrdered(s, v);
    ResolvesToOrdered(s, w);
  }
}
