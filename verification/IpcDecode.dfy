/** Schema-directed decoding of Postcard bytes, as a specification and as the visitors' loops. */
module IpcDecode {
  import opened Wrappers
  import opened Postcard
  import opened IpcValue

  function Wrap<T(!new)>(r: Step<T>, f: T -> Value): Step<Value> {
    if r.Failure? then Failure(r.error) else Success(Item(f(r.value.value), r.value.rest))
  }

  function ReadBool(bytes: seq<Byte>): Step<bool> {
    if bytes == [] then Failure(UnexpectedEnd)
    else if bytes[0] == 0 then Success(Item(false, bytes[1..]))
    else if bytes[0] == 1 then Success(Item(true, bytes[1..]))
    else Failure(BadBool)
  }

  /** A length prefix and that many bytes. */
  function ReadBytes(bytes: seq<Byte>): Step<seq<Byte>> {
    var n := ReadUint(W64, bytes);
    if n.Failure? then Failure(n.error)
    else if |n.value.rest| < n.value.value then Failure(UnexpectedEnd)
    else Success(Item(n.value.rest[..n.value.value], n.value.rest[n.value.value..]))
  }

  function Decode(s: Schema, bytes: seq<Byte>): Step<Value>
    decreases s, 0
  {
    match s
    case TUint(w) => Wrap(ReadUint(w, bytes), (n: nat) => Uint(w, n))
    case TSint(w) => Wrap(ReadSint(w, bytes), (i: int) => Sint(w, i))
    case TUsize => Wrap(ReadUint(W64, bytes), (n: nat) => Uint(W64, n))
    case TIsize => Wrap(ReadSint(W64, bytes), (i: int) => Sint(W64, i))
    case TBool => Wrap(ReadBool(bytes), (b: bool) => Bool(b))
    case TChar => Wrap(ReadChar(bytes), (c: Scalar) => Char(c))
    case TBytes => Wrap(ReadBytes(bytes), (b: seq<Byte>) => Bytes(b))
    case TUnit => Success(Item(Unit, bytes))
    case TOption(inner) =>
      if bytes == [] then Failure(UnexpectedEnd)
      else if bytes[0] == 0 then Success(Item(Absent, bytes[1..]))
      else if bytes[0] == 1 then Wrap(Decode(inner, bytes[1..]), (x: Value) => Present(x))
      else Failure(BadOption)
    case TNewtype(inner) => Decode(inner, bytes)
    case TSeq(inner) =>
      var n := ReadUint(W64, bytes);
      if n.Failure? then Failure(n.error)
      else Wrap(DecodeRepeated(inner, n.value.value, n.value.rest), (xs: seq<Value>) => Tuple(xs))
    case TMap(key, val) =>
      var n := ReadUint(W64, bytes);
      if n.Failure? then Failure(n.error)
      else Wrap(DecodePairs(key, val, n.value.value, n.value.rest), (xs: seq<Value>) => Tuple(xs))
    case TTuple(elems) => Wrap(DecodeTuple(elems, bytes), (xs: seq<Value>) => Tuple(xs))
    case TTupleStruct(elems) => Wrap(DecodeTuple(elems, bytes), (xs: seq<Value>) => Tuple(xs))
    case TStruct(fields) => Wrap(DecodeFields(fields, bytes), (fs: seq<Field>) => Struct(fs))
    case TEnum(variants) =>
      var n := ReadUint(W32, bytes);
      if n.Failure? then Failure(n.error)
      else if n.value.value >= |variants| then Failure(UnknownVariant(n.value.value))
      else
        var v := variants[n.value.value];
        var p := DecodeShape(v.shape, n.value.rest);
        if p.Failure? then Failure(p.error) else Success(Item(Enum(v.name, p.value.value), p.value.rest))
    case TUnsupported => Failure(Unsupported)
  }

  function DecodeShape(shape: Shape, bytes: seq<Byte>): Step<seq<Value>>
    decreases shape, 0
  {
    match shape
    case UnitShape => Success(Item([], bytes))
    case NewtypeShape(ty) =>
      var x := Decode(ty, bytes);
      if x.Failure? then Failure(x.error) else Success(Item([x.value.value], x.value.rest))
    case TupleShape(elems) => DecodeTuple(elems, bytes)
    case StructShape(fields) =>
      // the visitor is offered no elements at all
      if fields == [] then Success(Item([Struct([])], bytes)) else Failure(MissingStructField)
  }

  function DecodeTuple(elems: seq<Schema>, bytes: seq<Byte>): Step<seq<Value>>
    decreases elems, 0
  {
    if elems == [] then Success(Item([], bytes))
    else
      var front := DecodeTuple(elems[..|elems| - 1], bytes);
      if front.Failure? then front
      else
        var x := Decode(elems[|elems| - 1], front.value.rest);
        if x.Failure? then Failure(x.error) else Success(Item(front.value.value + [x.value.value], x.value.rest))
  }

  function DecodeFields(fields: seq<FieldType>, bytes: seq<Byte>): Step<seq<Field>>
    decreases fields, 0
  {
    if fields == [] then Success(Item([], bytes))
    else
      var front := DecodeFields(fields[..|fields| - 1], bytes);
      var last := fields[|fields| - 1];
      if front.Failure? then front
      else
        var x := Decode(last.ty, front.value.rest);
        if x.Failure? then Failure(x.error)
        else Success(Item(Insert(front.value.value, last.name, x.value.value), x.value.rest))
  }

  function DecodeRepeated(inner: Schema, n: nat, bytes: seq<Byte>): Step<seq<Value>>
    decreases inner, n + 1
  {
    if n == 0 then Success(Item([], bytes))
    else
      var front := DecodeRepeated(inner, n - 1, bytes);
      if front.Failure? then front
      else
        var x := Decode(inner, front.value.rest);
        if x.Failure? then Failure(x.error) else Success(Item(front.value.value + [x.value.value], x.value.rest))
  }

  function DecodePairs(key: Schema, val: Schema, n: nat, bytes: seq<Byte>): Step<seq<Value>>
    decreases TMap(key, val), 0, n
  {
    if n == 0 then Success(Item([], bytes))
    else
      var front := DecodePairs(key, val, n - 1, bytes);
      if front.Failure? then front
      else
        var k := Decode(key, front.value.rest);
        if k.Failure? then Failure(k.error)
        else
          var v := Decode(val, k.value.rest);
          if v.Failure? then Failure(v.error)
          else Success(Item(front.value.value + [Tuple([k.value.value, v.value.value])], v.value.rest))
  }

  // --- The visitors ----------------------------------------------------------------------------

  lemma {:induction false} TuplePrefixFails(elems: seq<Schema>, i: nat, bytes: seq<Byte>)
    requires i <= |elems| && DecodeTuple(elems[..i], bytes).Failure?
    ensures DecodeTuple(elems, bytes) == DecodeTuple(elems[..i], bytes)
    decreases |elems|
  {
    if i == |elems| {
      assert elems[..i] == elems;
    } else {
      assert elems[..|elems| - 1][..i] == elems[..i];
      TuplePrefixFails(elems[..|elems| - 1], i, bytes);
    }
  }

  lemma {:induction false} FieldsPrefixFails(fields: seq<FieldType>, i: nat, bytes: seq<Byte>)
    requires i <= |fields| && DecodeFields(fields[..i], bytes).Failure?
    ensures DecodeFields(fields, bytes) == DecodeFields(fields[..i], bytes)
    decreases |fields|
  {
    if i == |fields| {
      assert fields[..i] == fields;
    } else {
      assert fields[..|fields| - 1][..i] == fields[..i];
      FieldsPrefixFails(fields[..|fields| - 1], i, bytes);
    }
  }

  lemma {:induction false} RepeatedPrefixFails(inner: Schema, i: nat, n: nat, bytes: seq<Byte>)
    requires i <= n && DecodeRepeated(inner, i, bytes).Failure?
    ensures DecodeRepeated(inner, n, bytes) == DecodeRepeated(inner, i, bytes)
  {
    if i < n { RepeatedPrefixFails(inner, i, n - 1, bytes); }
  }

  lemma {:induction false} PairsPrefixFails(key: Schema, val: Schema, i: nat, n: nat, bytes: seq<Byte>)
    requires i <= n && DecodePairs(key, val, i, bytes).Failure?
    ensures DecodePairs(key, val, n, bytes) == DecodePairs(key, val, i, bytes)
  {
    if i < n { PairsPrefixFails(key, val, i, n - 1, bytes); }
  }

  method VisitTuple(elems: seq<Schema>, bytes: seq<Byte>) returns (r: Step<seq<Value>>)
    ensures r == DecodeTuple(elems, bytes)
    decreases elems, 0
  {
    hide Decode;
    var items: seq<Value> := [];
    var rest := bytes;
    for i := 0 to |elems|
      invariant DecodeTuple(elems[..i], bytes) == Success(Item(items, rest))
    {
      assert elems[..i + 1][..i] == elems[..i];
      var x := DecodeValue(elems[i], rest);
      if x.Failure? {
        TuplePrefixFails(elems, i + 1, bytes);
        return Failure(x.error);
      }
      items := items + [x.value.value];
      rest := x.value.rest;
    }
    assert elems[..|elems|] == elems;
    r := Success(Item(items, rest));
  }

  /** The visitor is offered `offered` elements; a plain struct offers all, a struct variant none. */
  method VisitStruct(fields: seq<FieldType>, offered: nat, bytes: seq<Byte>) returns (r: Step<seq<Field>>)
    ensures offered >= |fields| ==> r == DecodeFields(fields, bytes)
    ensures offered == 0 ==> r == if fields == [] then Success(Item([], bytes)) else Failure(MissingStructField)
    decreases fields, 0
  {
    hide Decode;
    var found: seq<Field> := [];
    var rest := bytes;
    for i := 0 to |fields|
      invariant DecodeFields(fields[..i], bytes) == Success(Item(found, rest)) && i <= offered
    {
      if i == offered { return Failure(MissingStructField); }
      assert fields[..i + 1][..i] == fields[..i];
      var x := DecodeValue(fields[i].ty, rest);
      if x.Failure? {
        FieldsPrefixFails(fields, i + 1, bytes);
        return Failure(x.error);
      }
      found := Insert(found, fields[i].name, x.value.value);
      rest := x.value.rest;
    }
    assert fields[..|fields|] == fields;
    r := Success(Item(found, rest));
  }

  method VisitSeq(inner: Schema, n: nat, bytes: seq<Byte>) returns (r: Step<seq<Value>>)
    ensures r == DecodeRepeated(inner, n, bytes)
    decreases inner, 1
  {
    hide Decode;
    var items: seq<Value> := [];
    var rest := bytes;
    for i := 0 to n
      invariant DecodeRepeated(inner, i, bytes) == Success(Item(items, rest))
    {
      var x := DecodeValue(inner, rest);
      if x.Failure? {
        RepeatedPrefixFails(inner, i + 1, n, bytes);
        return Failure(x.error);
      }
      items := items + [x.value.value];
      rest := x.value.rest;
    }
    r := Success(Item(items, rest));
  }

  method VisitMap(key: Schema, val: Schema, n: nat, bytes: seq<Byte>) returns (r: Step<seq<Value>>)
    ensures r == DecodePairs(key, val, n, bytes)
    decreases TMap(key, val), 0, 0
  {
    hide Decode;
    var items: seq<Value> := [];
    var rest := bytes;
    for i := 0 to n
      invariant DecodePairs(key, val, i, bytes) == Success(Item(items, rest))
    {
      var k := DecodeValue(key, rest);
      if k.Failure? {
        PairsPrefixFails(key, val, i + 1, n, bytes);
        return Failure(k.error);
      }
      var v := DecodeValue(val, k.value.rest);
      if v.Failure? {
        PairsPrefixFails(key, val, i + 1, n, bytes);
        return Failure(v.error);
      }
      items := items + [Tuple([k.value.value, v.value.value])];
      rest := v.value.rest;
    }
    r := Success(Item(items, rest));
  }

  method VisitEnum(variants: seq<Variant>, bytes: seq<Byte>) returns (r: Step<Value>)
    ensures r == Decode(TEnum(variants), bytes)
    decreases variants, 0
  {
    var n := ReadUint(W32, bytes);
    if n.Failure? { return Failure(n.error); }
    if n.value.value >= |variants| { return Failure(UnknownVariant(n.value.value)); }
    var v := variants[n.value.value];
    var rest := n.value.rest;
    match v.shape
    case UnitShape =>
      r := Success(Item(Enum(v.name, []), rest));
    case NewtypeShape(ty) =>
      var x := DecodeValue(ty, rest);
      if x.Failure? { return Failure(x.error); }
      r := Success(Item(Enum(v.name, [x.value.value]), x.value.rest));
    case TupleShape(elems) =>
      var xs := VisitTuple(elems, rest);
      if xs.Failure? { return Failure(xs.error); }
      r := Success(Item(Enum(v.name, xs.value.value), xs.value.rest));
    case StructShape(fields) =>
      var fs := VisitStruct(fields, 0, rest);
      if fs.Failure? { return Failure(fs.error); }
      r := Success(Item(Enum(v.name, [Struct(fs.value.value)]), fs.value.rest));
  }

  method DecodeValue(s: Schema, bytes: seq<Byte>) returns (r: Step<Value>)
    ensures r == Decode(s, bytes)
    decreases s, 0
  {
    match s
    case TOption(inner) =>
      if bytes == [] || bytes[0] != 1 { return Decode(s, bytes); }
      var x := DecodeValue(inner, bytes[1..]);
      r := Wrap(x, (x: Value) => Present(x));
    case TNewtype(inner) =>
      r := DecodeValue(inner, bytes);
    case TSeq(inner) =>
      var n := ReadUint(W64, bytes);
      if n.Failure? { return Failure(n.error); }
      var xs := VisitSeq(inner, n.value.value, n.value.rest);
      r := Wrap(xs, (xs: seq<Value>) => Tuple(xs));
    case TMap(key, val) =>
      var n := ReadUint(W64, bytes);
      if n.Failure? { return Failure(n.error); }
      var xs := VisitMap(key, val, n.value.value, n.value.rest);
      r := Wrap(xs, (xs: seq<Value>) => Tuple(xs));
    case TTuple(elems) =>
      var xs := VisitTuple(elems, bytes);
      r := Wrap(xs, (xs: seq<Value>) => Tuple(xs));
    case TTupleStruct(elems) =>
      var xs := VisitTuple(elems, bytes);
      r := Wrap(xs, (xs: seq<Value>) => Tuple(xs));
    case TStruct(fields) =>
      var fs := VisitStruct(fields, |fields|, bytes);
      r := Wrap(fs, (fs: seq<Field>) => Struct(fs));
    case TEnum(variants) =>
      r := VisitEnum(variants, bytes);
    case _ =>
      r := Decode(s, bytes);
  }

  // --- Results -----------------------------------------------------------------------------------

  predicate ResultShaped(variant: string, payload: seq<Value>) {
    |payload| == 1 && (variant == "Ok" || variant == "Err")
  }

  /** Turns decoded `Ok` and `Err` variants into `Result` values, at every depth. */
  function Canon(v: Value): Value
    decreases v
  {
    match v
    case Enum(variant, payload) =>
      if ResultShaped(variant, payload) then
        if variant == "Ok" then Ok(Canon(payload[0])) else Err(Canon(payload[0]))
      else Enum(variant, CanonAll(payload))
    case Struct(fields) => Struct(CanonFields(fields))
    case Tuple(items) => Tuple(CanonAll(items))
    case Present(x) => Present(Canon(x))
    case Ok(x) => Ok(Canon(x))
    case Err(x) => Err(Canon(x))
    case _ => v
  }

  function CanonAll(items: seq<Value>): (r: seq<Value>)
    ensures |r| == |items| && forall i | 0 <= i < |items| :: r[i] == Canon(items[i])
    decreases items
  {
    if items == [] then [] else CanonAll(items[..|items| - 1]) + [Canon(items[|items| - 1])]
  }

  function CanonFields(fields: seq<Field>): (r: seq<Field>)
    ensures |r| == |fields| && forall i | 0 <= i < |fields| :: r[i] == Field(fields[i].name, Canon(fields[i].value))
    decreases fields
  {
    if fields == [] then []
    else CanonFields(fields[..|fields| - 1]) + [Field(fields[|fields| - 1].name, Canon(fields[|fields| - 1].value))]
  }

  /** The public decoder. Bytes behind the value are ignored. */
  function Decoded(s: Schema, bytes: seq<Byte>): Result<Value, DecodeError> {
    var raw := Decode(s, bytes);
    if raw.Failure? then Failure(raw.error) else Success(Canon(raw.value.value))
  }
}
