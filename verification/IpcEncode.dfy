/** Schema-directed encoding: resolve a value against its schema, then serialize it. */
module IpcEncode {
  import opened Wrappers
  import opened Postcard
  import opened IpcValue

  datatype EncodeError = ExpectedStruct | MissingField(name: string) | UnknownVariantName(variant: string)

  function Digit(d: nat): char
    requires d < 10
  {
    ('0' as int + d) as char
  }

  function Decimal(n: nat): string {
    if n < 10 then [Digit(n)] else Decimal(n / 10) + [Digit(n % 10)]
  }

  function NumberOf(s: string): int {
    if s == "" then 0 else 10 * NumberOf(s[..|s| - 1]) + (s[|s| - 1] as int - '0' as int)
  }

  /** The index in front of a resolved variant's name is its decimal form. */
  lemma {:induction false} DecimalReads(n: nat)
    ensures NumberOf(Decimal(n)) == n && forall c | c in Decimal(n) :: '0' <= c <= '9'
  {
    if n >= 10 {
      DecimalReads(n / 10);
      var front := Decimal(n / 10);
      assert (front + [Digit(n % 10)])[..|front|] == front;
    } else {
      assert [Digit(n)][..0] == "";
    }
  }

  function FindVariant(variants: seq<Variant>, name: string): (r: Option<nat>)
    ensures r.Some? ==> r.value < |variants| && variants[r.value].name == name
    ensures r.Some? ==> forall i | 0 <= i < r.value :: variants[i].name != name
    ensures r.None? ==> forall i | 0 <= i < |variants| :: variants[i].name != name
  {
    if variants == [] then None
    else if variants[0].name == name then Some(0)
    else
      var r := FindVariant(variants[1..], name);
      if r.None? then None else Some(r.value + 1)
  }

  /**
   Puts struct fields in schema order, wraps bare optional values, checks variant names.
   Payloads of variants and contents of newtypes and tuple structs are left as they are.
   */
  function Resolve(s: Schema, v: Value): Result<Value, EncodeError>
    decreases s, v
  {
    if s.TEnum? && v.Enum? then
      var at := FindVariant(s.variants, v.variant);
      if at.None? then Failure(UnknownVariantName(v.variant))
      else Success(Enum(Decimal(at.value) + ":" + v.variant, v.payload))
    else if s.TOption? then
      if v.Absent? then Success(Absent)
      else
        var x := Resolve(s.inner, if v.Present? then v.inner else v);
        if x.Failure? then x else Success(Present(x.value))
    else if s.TStruct? && v.Struct? then
      var fs := ResolveFields(s.fields, v.fields);
      if fs.Failure? then Failure(fs.error) else Success(Struct(fs.value))
    else if s.TTuple? && v.Tuple? then
      var xs := ResolveZip(s.elems, v.items);
      if xs.Failure? then Failure(xs.error) else Success(Tuple(xs.value))
    else Success(v)
  }

  function ResolveFields(types: seq<FieldType>, fields: seq<Field>): Result<seq<Field>, EncodeError>
    decreases types
  {
    if types == [] then Success([])
    else
      var front := ResolveFields(types[..|types| - 1], fields);
      var last := types[|types| - 1];
      if front.Failure? then front
      else if Get(fields, last.name).None? then Failure(MissingField(last.name))
      else
        var x := Resolve(last.ty, Get(fields, last.name).value);
        if x.Failure? then Failure(x.error) else Success(Insert(front.value, last.name, x.value))
  }

  /** Stops at the shorter of the two lists. */
  function ResolveZip(elems: seq<Schema>, items: seq<Value>): Result<seq<Value>, EncodeError>
    decreases elems
  {
    if elems == [] then Success([])
    else
      var n := |elems| - 1;
      var front := ResolveZip(elems[..n], items);
      if front.Failure? || n >= |items| then front
      else
        var x := Resolve(elems[n], items[n]);
        if x.Failure? then Failure(x.error) else Success(front.value + [x.value])
  }

  /** Every variant is known by name and every field of a struct is there, as deep as the encoder looks. */
  predicate Resolvable(s: Schema, v: Value)
    decreases s, v
  {
    if s.TEnum? && v.Enum? then exists i :: 0 <= i < |s.variants| && s.variants[i].name == v.variant
    else if s.TOption? then v.Absent? || Resolvable(s.inner, if v.Present? then v.inner else v)
    else if s.TStruct? && v.Struct? then
      forall i | 0 <= i < |s.fields| ::
        && Get(v.fields, s.fields[i].name).Some?
        && Resolvable(s.fields[i].ty, Get(v.fields, s.fields[i].name).value)
    else if s.TTuple? && v.Tuple? then
      forall i | 0 <= i < |s.elems| && i < |v.items| :: Resolvable(s.elems[i], v.items[i])
    else true
  }

  /** Exactly those values are encoded at all. */
  lemma {:induction false} ResolvesIff(s: Schema, v: Value)
    ensures Resolve(s, v).Success? <==> Resolvable(s, v)
    decreases s, 1
  {
    if s.TOption? {
      if !v.Absent? { ResolvesIff(s.inner, if v.Present? then v.inner else v); }
    } else if s.TStruct? && v.Struct? {
      FieldsResolveIff(s, v.fields, |s.fields|);
      assert s.fields[..|s.fields|] == s.fields;
    } else if s.TTuple? && v.Tuple? {
      ZipResolvesIff(s, v.items, |s.elems|);
      assert s.elems[..|s.elems|] == s.elems;
    }
  }

  lemma {:induction false} FieldsResolveIff(s: Schema, fields: seq<Field>, n: nat)
    requires s.TStruct? && n <= |s.fields|
    ensures ResolveFields(s.fields[..n], fields).Success? <==> forall i | 0 <= i < n ::
              && Get(fields, s.fields[i].name).Some?
              && Resolvable(s.fields[i].ty, Get(fields, s.fields[i].name).value)
    decreases s, 0, n
  {
    hide Get, Resolve, Resolvable, Insert;
    if n > 0 {
      FieldsResolveIff(s, fields, n - 1);
      assert s.fields[..n][..n - 1] == s.fields[..n - 1];
      var last := s.fields[n - 1];
      if Get(fields, last.name).Some? { ResolvesIff(last.ty, Get(fields, last.name).value); }
    }
  }

  lemma {:induction false} ZipResolvesIff(s: Schema, items: seq<Value>, n: nat)
    requires s.TTuple? && n <= |s.elems|
    ensures ResolveZip(s.elems[..n], items).Success? <==> forall i | 0 <= i < n && i < |items| ::
              Resolvable(s.elems[i], items[i])
    decreases s, 0, n
  {
    hide Resolve, Resolvable;
    if n > 0 {
      ZipResolvesIff(s, items, n - 1);
      assert s.elems[..n][..n - 1] == s.elems[..n - 1];
      if n - 1 < |items| { ResolvesIff(s.elems[n - 1], items[n - 1]); }
    }
  }

  function Encode(s: Schema, v: Value): Result<seq<Byte>, EncodeError> {
    var w := Resolve(s, v);
    if w.Failure? then Failure(w.error) else Success(Serialize(w.value))
  }

  // --- Call arguments ------------------------------------------------------------------------

  /** Arguments in declaration order; the first missing or unresolvable one fails the call. */
  function ResolveArgs(params: seq<FieldType>, fields: seq<Field>): Result<seq<Value>, EncodeError> {
    if params == [] then Success([])
    else
      var front := ResolveArgs(params[..|params| - 1], fields);
      var last := params[|params| - 1];
      if front.Failure? then front
      else if Get(fields, last.name).None? then Failure(MissingField(last.name))
      else
        var x := Resolve(last.ty, Get(fields, last.name).value);
        if x.Failure? then Failure(x.error) else Success(front.value + [x.value])
  }

  function HandleItems(handle: Option<nat>): seq<Value> {
    if handle.None? then [] else [Uint(W64, handle.value)]
  }

  function Args(params: seq<FieldType>, handle: Option<nat>, v: Value): Result<seq<Byte>, EncodeError> {
    if !v.Struct? then Failure(ExpectedStruct)
    else
      var xs := ResolveArgs(params, v.fields);
      if xs.Failure? then Failure(xs.error) else Success(SerializeAll(HandleItems(handle) + xs.value))
  }

  lemma {:induction false} ArgsPrefixFails(params: seq<FieldType>, i: nat, fields: seq<Field>)
    requires i <= |params| && ResolveArgs(params[..i], fields).Failure?
    ensures ResolveArgs(params, fields) == ResolveArgs(params[..i], fields)
    decreases |params|
  {
    if i == |params| {
      assert params[..i] == params;
    } else {
      assert params[..|params| - 1][..i] == params[..i];
      ArgsPrefixFails(params[..|params| - 1], i, fields);
    }
  }

  method EncodeArgs(params: seq<FieldType>, handle: Option<nat>, v: Value) returns (r: Result<seq<Byte>, EncodeError>)
    ensures r == Args(params, handle, v)
  {
    if !v.Struct? { return Failure(ExpectedStruct); }
    var items := HandleItems(handle);
    ghost var resolved: seq<Value> := [];
    for i := 0 to |params|
      invariant ResolveArgs(params[..i], v.fields) == Success(resolved) && items == HandleItems(handle) + resolved
    {
      assert params[..i + 1][..i] == params[..i];
      var found := Get(v.fields, params[i].name);
      if found.None? {
        ArgsPrefixFails(params, i + 1, v.fields);
        return Failure(MissingField(params[i].name));
      }
      var x := Resolve(params[i].ty, found.value);
      if x.Failure? {
        ArgsPrefixFails(params, i + 1, v.fields);
        return Failure(x.error);
      }
      items := items + [x.value];
      resolved := resolved + [x.value];
    }
    assert params[..|params|] == params;
    r := Success(Serialize(Tuple(items)));
  }
}
