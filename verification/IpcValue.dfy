/** Dynamically typed IPC values, the schemas that describe them, and their Postcard bytes. */
module IpcValue {
  import opened Wrappers
  import opened Postcard

  datatype Field = Field(name: string, value: Value)

  /** A struct is an insertion-ordered map, so its fields are a sequence with distinct names. */
  datatype Value =
    | Uint(width: Width, n: nat)
    | Sint(width: Width, i: int)
    | Bool(b: bool)
    | Char(c: Scalar)
    | Struct(fields: seq<Field>)
    | Tuple(items: seq<Value>)
    | Enum(variant: string, payload: seq<Value>)
    | Present(inner: Value)
    | Absent
    | Ok(inner: Value)
    | Err(inner: Value)
    | Bytes(bytes: seq<Byte>)
    | Unit

  datatype FieldType = FieldType(name: string, ty: Schema)

  datatype Shape =
    | UnitShape
    | NewtypeShape(ty: Schema)
    | TupleShape(elems: seq<Schema>)
    | StructShape(fields: seq<FieldType>)

  datatype Variant = Variant(name: string, shape: Shape)

  datatype Schema =
    | TUint(width: Width)
    | TSint(width: Width)
    | TUsize
    | TIsize
    | TBool
    | TChar
    | TBytes
    | TUnit
    | TOption(inner: Schema)
    | TNewtype(inner: Schema)
    | TSeq(inner: Schema)
    | TMap(key: Schema, val: Schema)
    | TTuple(elems: seq<Schema>)
    | TTupleStruct(elems: seq<Schema>)
    | TStruct(fields: seq<FieldType>)
    | TEnum(variants: seq<Variant>)
    | TUnsupported

  // --- Insertion-ordered maps ----------------------------------------------------------------

  predicate DistinctFields(fields: seq<Field>) {
    forall i, j | 0 <= i < j < |fields| :: fields[i].name != fields[j].name
  }

  function IndexOf(fields: seq<Field>, name: string): (r: Option<nat>)
    ensures r.Some? ==> r.value < |fields| && fields[r.value].name == name
    ensures r.None? ==> forall f | f in fields :: f.name != name
  {
    if fields == [] then None
    else if fields[0].name == name then Some(0)
    else
      var r := IndexOf(fields[1..], name);
      if r.None? then None else Some(r.value + 1)
  }

  function Get(fields: seq<Field>, name: string): Option<Value> {
    var i := IndexOf(fields, name);
    if i.None? then None else Some(fields[i.value].value)
  }

  function Insert(fields: seq<Field>, name: string, value: Value): seq<Field> {
    var i := IndexOf(fields, name);
    if i.None? then fields + [Field(name, value)] else fields[i.value := Field(name, value)]
  }

  /** Removes a field by moving the last field into its slot. */
  function SwapRemove(fields: seq<Field>, name: string): seq<Field> {
    var i := IndexOf(fields, name);
    if i.None? then fields
    else if i.value == |fields| - 1 then fields[..i.value]
    else fields[..|fields| - 1][i.value := fields[|fields| - 1]]
  }

  lemma {:induction false} GetAt(fields: seq<Field>, i: nat)
    requires DistinctFields(fields) && i < |fields|
    ensures IndexOf(fields, fields[i].name) == Some(i) && Get(fields, fields[i].name) == Some(fields[i].value)
  {
    assert fields[i] in fields;
  }

  /** A field is in the map exactly when it is what looking its name up gives. */
  lemma GetIff(fields: seq<Field>, name: string, value: Value)
    requires DistinctFields(fields)
    ensures Get(fields, name) == Some(value) <==> Field(name, value) in fields
  {
    if Field(name, value) in fields {
      var i :| 0 <= i < |fields| && fields[i] == Field(name, value);
      GetAt(fields, i);
    }
  }

  /** Removal forgets one name and no other, although it reorders the map. */
  lemma SwapRemoveForgets(fields: seq<Field>, name: string)
    requires DistinctFields(fields)
    ensures DistinctFields(SwapRemove(fields, name))
    ensures Get(SwapRemove(fields, name), name).None?
    ensures forall other | other != name :: Get(SwapRemove(fields, name), other) == Get(fields, other)
  {
    var left := SwapRemove(fields, name);
    if IndexOf(fields, name).Some? {
      var at := IndexOf(fields, name).value;
      assert forall i | 0 <= i < |left| :: left[i] == if i == at then fields[|fields| - 1] else fields[i];
      forall other | other != name ensures Get(left, other) == Get(fields, other) {
        if Get(fields, other).Some? {
          var i := IndexOf(fields, other).value;
          GetAt(left, if i == |fields| - 1 then at else i);
        }
      }
    }
  }

  // --- Serialization -------------------------------------------------------------------------

  /** The bytes of a value. A generic enum always carries variant index 0. */
  function Serialize(v: Value): seq<Byte>
    decreases v
  {
    match v
    case Uint(w, n) => WriteUint(w, n)
    case Sint(w, i) => WriteSint(w, i)
    case Bool(b) => [if b then 1 else 0]
    case Char(c) => WriteChar(c)
    case Struct(fields) => SerializeFields(fields)
    case Tuple(items) => SerializeAll(items)
    case Enum(_, payload) => Varint(0) + SerializeAll(payload)
    case Present(x) => [1] + Serialize(x)
    case Absent => [0]
    case Ok(x) => Varint(0) + Serialize(x)
    case Err(x) => Varint(1) + Serialize(x)
    case Bytes(b) => Varint(|b|) + b
    case Unit => []
  }

  function SerializeAll(items: seq<Value>): seq<Byte>
    decreases items
  {
    if items == [] then [] else SerializeAll(items[..|items| - 1]) + Serialize(items[|items| - 1])
  }

  function SerializeFields(fields: seq<Field>): seq<Byte>
    decreases fields
  {
    if fields == [] then [] else SerializeFields(fields[..|fields| - 1]) + Serialize(fields[|fields| - 1].value)
  }
}
