/** Encoding whole calls (arguments, handle, leases) and decoding replies against a method's schema. */
module IpcRegistry {
  import opened Wrappers
  import opened Postcard
  import opened IpcValue
  import opened IpcDecode
  import opened IpcEncode
  import opened IpcWire
  import opened IpcRoundTrip
  import IpcLimits

  datatype MethodKind = Constructor | Message | StaticMessage | Destructor {
    predicate TakesHandle() {
      Message? || Destructor?
    }
  }

  datatype LeaseInfo = LeaseInfo(name: string, mutable: bool)

  datatype MethodSchema = MethodSchema(methodId: nat, resourceKind: nat, kind: MethodKind, params: seq<FieldType>,
                                       leases: seq<LeaseInfo>, returnSchema: Option<Schema>)

  datatype LeaseKind = Read | ReadWrite

  datatype LeaseDescriptor = LeaseDescriptor(kind: LeaseKind, length: nat)

  datatype EncodedCall = EncodedCall(taskId: nat, resourceKind: nat, methodId: nat, wireArgs: seq<Byte>,
                                     leases: seq<LeaseDescriptor>, leaseData: seq<seq<Byte>>)

  datatype Registry = Registry(methods: map<(string, string), MethodSchema>, taskIds: map<string, nat>)

  datatype CallError = UnknownMethod | MissingHandle | UnexpectedHandle | EncodeFailed(error: EncodeError)

  // --- Leases ----------------------------------------------------------------------------------

  /** A missing field, or one that is not bytes, lends an empty buffer. */
  function BytesOrEmpty(v: Option<Value>): seq<Byte> {
    if v.Some? && v.value.Bytes? then v.value.bytes else []
  }

  predicate NamedBefore(leases: seq<LeaseInfo>, n: nat, name: string)
    requires n <= |leases|
  {
    exists j | 0 <= j < n :: leases[j].name == name
  }

  /** Lease `i` lends the caller's field of its name, unless an earlier lease of that name took it. */
  function LeaseBytes(fields: seq<Field>, leases: seq<LeaseInfo>, i: nat): seq<Byte>
    requires i < |leases|
  {
    if NamedBefore(leases, i, leases[i].name) then [] else BytesOrEmpty(Get(fields, leases[i].name))
  }

  /** The length field is sixteen bits wide. */
  function DescriptorOf(lease: LeaseInfo, data: seq<Byte>): LeaseDescriptor {
    LeaseDescriptor(if lease.mutable then ReadWrite else Read, |data| % 0x1_0000)
  }

  /** The first `n` leases are taken out of `fields`, leaving `left`. */
  ghost predicate LeasesTaken(fields: seq<Field>, leases: seq<LeaseInfo>, n: nat, left: seq<Field>,
                              data: seq<seq<Byte>>, descriptors: seq<LeaseDescriptor>)
    requires n <= |leases|
  {
    && DistinctFields(left) && |data| == n && |descriptors| == n
    && (forall name :: Get(left, name) == if NamedBefore(leases, n, name) then None else Get(fields, name))
    && (forall i | 0 <= i < n ::
          && data[i] == LeaseBytes(fields, leases, i) && descriptors[i].length == |data[i]| % 0x1_0000
          && (descriptors[i].kind == ReadWrite <==> leases[i].mutable))
  }

  lemma TakeLease(fields: seq<Field>, leases: seq<LeaseInfo>, n: nat, left: seq<Field>, data: seq<seq<Byte>>,
                  descriptors: seq<LeaseDescriptor>)
    requires n < |leases| && LeasesTaken(fields, leases, n, left, data, descriptors)
    ensures var taken := BytesOrEmpty(Get(left, leases[n].name));
            LeasesTaken(fields, leases, n + 1, SwapRemove(left, leases[n].name), data + [taken],
                        descriptors + [DescriptorOf(leases[n], taken)])
  {
    hide Get, SwapRemove;
    SwapRemoveForgets(left, leases[n].name);
    forall name ensures NamedBefore(leases, n + 1, name) <==> NamedBefore(leases, n, name) || leases[n].name == name {
      if leases[n].name == name { assert NamedBefore(leases, n + 1, name); }
    }
  }

  method TakeLeases(fields: seq<Field>, leases: seq<LeaseInfo>)
    returns (left: seq<Field>, data: seq<seq<Byte>>, descriptors: seq<LeaseDescriptor>)
    requires DistinctFields(fields)
    ensures LeasesTaken(fields, leases, |leases|, left, data, descriptors)
  {
    left, data, descriptors := fields, [], [];
    for n := 0 to |leases|
      invariant LeasesTaken(fields, leases, n, left, data, descriptors)
    {
      hide LeasesTaken, Get, SwapRemove;
      TakeLease(fields, leases, n, left, data, descriptors);
      var taken := BytesOrEmpty(Get(left, leases[n].name));
      left := SwapRemove(left, leases[n].name);
      data := data + [taken];
      descriptors := descriptors + [DescriptorOf(leases[n], taken)];
    }
  }

  // --- Calls -----------------------------------------------------------------------------------

  /** Messages and destructors go to a resource that exists; constructors and static messages do not. */
  predicate OnResource(kind: MethodKind) {
    kind != Constructor && kind != StaticMessage
  }

  ghost predicate CallAccepted(reg: Registry, resource: string, name: string, handle: Option<nat>) {
    (resource, name) in reg.methods && (OnResource(reg.methods[(resource, name)].kind) <==> handle.Some?)
  }

  /** Parameters and leases of a method are fields of one call, so their names differ. */
  ghost predicate LeasesApart(m: MethodSchema) {
    forall p, l | p in m.params && l in m.leases :: p.name != l.name
  }

  /** The fields no lease names, in the caller's order. */
  function Unleased(fields: seq<Field>, leases: seq<LeaseInfo>): seq<Field> {
    if fields == [] then []
    else (if NamedBefore(leases, |leases|, fields[0].name) then [] else [fields[0]]) + Unleased(fields[1..], leases)
  }

  lemma {:induction false} UnleasedGet(fields: seq<Field>, leases: seq<LeaseInfo>, name: string)
    ensures Get(Unleased(fields, leases), name) ==
            if NamedBefore(leases, |leases|, name) then None else Get(fields, name)
  {
    if fields != [] {
      UnleasedGet(fields[1..], leases, name);
      var left := Unleased(fields[1..], leases);
      if NamedBefore(leases, |leases|, fields[0].name) {
        assert Unleased(fields, leases) == left;
      } else {
        assert Unleased(fields, leases)[1..] == left;
      }
    }
  }

  function CallArgs(m: MethodSchema, handle: Option<nat>, value: Value): Result<seq<Byte>, EncodeError> {
    if value.Struct? then Args(m.params, handle, Struct(Unleased(value.fields, m.leases))) else Failure(ExpectedStruct)
  }

  lemma ArgsFromRest(m: MethodSchema, fields: seq<Field>, left: seq<Field>, data: seq<seq<Byte>>,
                     descriptors: seq<LeaseDescriptor>, handle: Option<nat>)
    requires LeasesTaken(fields, m.leases, |m.leases|, left, data, descriptors)
    ensures Args(m.params, handle, Struct(left)) == CallArgs(m, handle, Struct(fields))
  {
    hide Get, ResolveArgs, Unleased;
    forall t | t in m.params ensures Get(left, t.name) == Get(Unleased(fields, m.leases), t.name) {
      UnleasedGet(fields, m.leases, t.name);
    }
    IpcLimits.OrderIgnored(m.params, left, Unleased(fields, m.leases));
  }

  /** When no parameter shares a lease's name, leases leave the argument bytes alone. */
  lemma LeasesDoNotDisturbArgs(m: MethodSchema, handle: Option<nat>, fields: seq<Field>)
    requires LeasesApart(m)
    ensures CallArgs(m, handle, Struct(fields)) == Args(m.params, handle, Struct(fields))
  {
    hide Get, ResolveArgs, Unleased;
    forall t | t in m.params ensures Get(Unleased(fields, m.leases), t.name) == Get(fields, t.name) {
      UnleasedGet(fields, m.leases, t.name);
      assert !NamedBefore(m.leases, |m.leases|, t.name);
    }
    IpcLimits.OrderIgnored(m.params, Unleased(fields, m.leases), fields);
  }

  /**
   Encodes a call. The lease fields are taken out with `swap_remove`, which reorders the rest, yet the
   argument bytes are those of the caller's remaining fields in their own order.
   */
  method EncodeCall(reg: Registry, resource: string, name: string, handle: Option<nat>, value: Value)
    returns (r: Result<EncodedCall, CallError>)
    requires value.Struct? ==> DistinctFields(value.fields)
    ensures r == Failure(UnknownMethod) <==> (resource, name) !in reg.methods
    ensures r == Failure(MissingHandle) <==>
            (resource, name) in reg.methods && OnResource(reg.methods[(resource, name)].kind) && handle.None?
    ensures r == Failure(UnexpectedHandle) <==>
            (resource, name) in reg.methods && !OnResource(reg.methods[(resource, name)].kind) && handle.Some?
    ensures CallAccepted(reg, resource, name, handle) ==>
              var m := reg.methods[(resource, name)];
              var args := CallArgs(m, handle, value);
              if args.Failure? then r == Failure(EncodeFailed(args.error))
              else
                && r.Success? && r.value.wireArgs == args.value
                && r.value.taskId == (if resource in reg.taskIds then reg.taskIds[resource] else 0)
                && r.value.resourceKind == m.resourceKind && r.value.methodId == m.methodId
                && |r.value.leaseData| == |r.value.leases| == |m.leases|
                && forall i | 0 <= i < |m.leases| ::
                     && r.value.leaseData[i] == LeaseBytes(value.fields, m.leases, i)
                     && r.value.leases[i].length == |r.value.leaseData[i]| % 0x1_0000
                     && (r.value.leases[i].kind == ReadWrite <==> m.leases[i].mutable)
  {
    hide Get, ResolveArgs, SwapRemove, Unleased;
    var taskId := if resource in reg.taskIds then reg.taskIds[resource] else 0;
    if (resource, name) !in reg.methods { return Failure(UnknownMethod); }
    var m := reg.methods[(resource, name)];
    if m.kind.TakesHandle() && handle.None? { return Failure(MissingHandle); }
    if !m.kind.TakesHandle() && handle.Some? { return Failure(UnexpectedHandle); }
    if !value.Struct? { return Failure(EncodeFailed(ExpectedStruct)); }
    var left, data, descriptors := TakeLeases(value.fields, m.leases);
    ArgsFromRest(m, value.fields, left, data, descriptors, handle);
    var args := EncodeArgs(m.params, handle, Struct(left));
    if args.Failure? { return Failure(EncodeFailed(args.error)); }
    r := Success(EncodedCall(taskId, m.resourceKind, m.methodId, args.value, descriptors, data));
  }

  /** Two callers that list the same fields in different orders send the same arguments and the same leases. */
  lemma CallIgnoresFieldOrder(m: MethodSchema, handle: Option<nat>, a: seq<Field>, b: seq<Field>)
    requires DistinctFields(a) && DistinctFields(b) && IpcLimits.Reordered(a, b)
    ensures CallArgs(m, handle, Struct(a)) == CallArgs(m, handle, Struct(b))
    ensures forall i | 0 <= i < |m.leases| :: LeaseBytes(a, m.leases, i) == LeaseBytes(b, m.leases, i)
  {
    hide Get, ResolveArgs, Unleased;
    forall name
      ensures Get(a, name) == Get(b, name)
      ensures Get(Unleased(a, m.leases), name) == Get(Unleased(b, m.leases), name)
    {
      IpcLimits.SameLookup(a, b, name);
      UnleasedGet(a, m.leases, name);
      UnleasedGet(b, m.leases, name);
    }
    IpcLimits.OrderIgnored(m.params, Unleased(a, m.leases), Unleased(b, m.leases));
  }

  // --- What the server reads -------------------------------------------------------------------

  ghost predicate ArgsWellTyped(params: seq<FieldType>, fields: seq<Field>) {
    forall i | 0 <= i < |params| ::
        Get(fields, params[i].name).Some? && WellTyped(params[i].ty, Get(fields, params[i].name).value)
  }

  function OrderedArgs(params: seq<FieldType>, fields: seq<Field>): (r: seq<Value>)
    requires ArgsWellTyped(params, fields)
    ensures |r| == |params|
  {
    seq(|params|, i requires 0 <= i < |params| => Ordered(params[i].ty, Get(fields, params[i].name).value))
  }

  function ParamTypes(params: seq<FieldType>): (r: seq<Schema>)
    ensures |r| == |params|
  {
    seq(|params|, i requires 0 <= i < |params| => params[i].ty)
  }

  function HandleTypes(handle: Option<nat>): seq<Schema> {
    if handle.None? then [] else [TUint(W64)]
  }

  lemma {:induction false} ArgsResolve(params: seq<FieldType>, n: nat, fields: seq<Field>, front: seq<Value>)
    requires ArgsWellTyped(params, fields) && n <= |params|
    ensures var r := ResolveArgs(params[..n], fields);
            r.Success? && SerializeAll(front + r.value) == SerializeAll(front + OrderedArgs(params, fields)[..n])
    decreases n
  {
    hide Get, Resolve, Serialize, SerializeAll, Ordered, WellTyped;
    var ordered := OrderedArgs(params, fields);
    if n > 0 {
      ArgsResolve(params, n - 1, fields, front);
      assert params[..n][..n - 1] == params[..n - 1];
      ResolvesToOrdered(params[n - 1].ty, Get(fields, params[n - 1].name).value);
      var r := ResolveArgs(params[..n - 1], fields).value;
      var x := Resolve(params[n - 1].ty, Get(fields, params[n - 1].name).value).value;
      assert ordered[..n] == ordered[..n - 1] + [ordered[n - 1]];
      SerializeLast(front, r, x);
      SerializeLast(front, ordered[..n - 1], ordered[n - 1]);
    } else {
      assert params[..0] == [] && ordered[..0] == [];
    }
  }

  lemma {:induction false} SerializeLast(front: seq<Value>, r: seq<Value>, x: Value)
    ensures SerializeAll(front + (r + [x])) == SerializeAll(front + r) + Serialize(x)
  {
    assert (front + (r + [x]))[..|front + r|] == front + r;
  }

  /** The server's tuple (handle first, then the arguments in declaration order) is what the call carried. */
  lemma {:induction false} ServerReadsArgs(params: seq<FieldType>, handle: Option<nat>, fields: seq<Field>,
                                           rest: seq<Byte>)
    requires ArgsWellTyped(params, fields) && (handle.Some? ==> handle.value < Bound(W64))
    ensures var bytes := Args(params, handle, Struct(fields));
            && bytes.Success?
            && Reads(Decode(TTuple(HandleTypes(handle) + ParamTypes(params)), bytes.value + rest),
                     Tuple(HandleItems(handle) + OrderedArgs(params, fields)), rest)
  {
    hide Get, Ordered, SerializeAll, ResolveArgs, DecodeTuple, Canon;
    ArgsResolve(params, |params|, fields, HandleItems(handle));
    assert params[..|params|] == params;
    var items := OrderedArgs(params, fields);
    assert items[..|params|] == items;
    var types := HandleTypes(handle) + ParamTypes(params);
    ArgsExact(params, handle, fields);
    AllAreWire(types, HandleItems(handle) + items);
    IpcWire.TupleReads(types, HandleItems(handle) + items, rest);
    TupleWhole(types, SerializeAll(HandleItems(handle) + items) + rest, HandleItems(handle) + items, rest);
  }

  lemma {:induction false} TupleWhole(types: seq<Schema>, bytes: seq<Byte>, items: seq<Value>, rest: seq<Byte>)
    requires ReadsAll(DecodeTuple(types, bytes), items, rest)
    ensures Reads(Decode(TTuple(types), bytes), Tuple(items), rest)
  {
    hide DecodeTuple;
  }

  lemma ArgsExact(params: seq<FieldType>, handle: Option<nat>, fields: seq<Field>)
    requires ArgsWellTyped(params, fields) && (handle.Some? ==> handle.value < Bound(W64))
    ensures ExactAll(HandleTypes(handle) + ParamTypes(params), HandleItems(handle) + OrderedArgs(params, fields))
  {
    hide Get, Ordered, WellTyped;
    var types := ParamTypes(params);
    var items := OrderedArgs(params, fields);
    forall i | 0 <= i < |params| ensures Exact(types[i], items[i]) {
      OrderedIsExact(params[i].ty, Get(fields, params[i].name).value);
    }
  }

  // --- Replies ---------------------------------------------------------------------------------

  datatype ReplyError =
    | Empty
    | UnexpectedOuterTag(tag: Byte)
    | UnexpectedPayload(length: nat)
    | ArenaError(code: Byte)
    | DecodeFailed(error: DecodeError)

  function DecodeReply(returnSchema: Option<Schema>, bytes: seq<Byte>): Result<Value, ReplyError> {
    if bytes == [] then Failure(Empty)
    else if bytes[0] == 0 then
      if returnSchema.None? then
        if |bytes| > 1 then Failure(UnexpectedPayload(|bytes| - 1)) else Success(Unit)
      else
        var r := Decoded(returnSchema.value, bytes[1..]);
        if r.Failure? then Failure(DecodeFailed(r.error)) else Success(r.value)
    else if bytes[0] == 1 then Failure(ArenaError(if |bytes| > 1 then bytes[1] else 0))
    else Failure(UnexpectedOuterTag(bytes[0]))
  }

  /** Replies without a value: nothing, an arena error with its code, an unknown tag, or no return schema. */
  lemma ReplyErrors(returnSchema: Option<Schema>, tag: Byte, rest: seq<Byte>)
    ensures DecodeReply(returnSchema, []) == Failure(Empty)
    ensures DecodeReply(returnSchema, [1, tag] + rest) == Failure(ArenaError(tag))
    ensures DecodeReply(returnSchema, [1]) == Failure(ArenaError(0))
    ensures tag > 1 ==> DecodeReply(returnSchema, [tag] + rest) == Failure(UnexpectedOuterTag(tag))
    ensures DecodeReply(None, [0] + rest) == if rest == [] then Success(Unit) else Failure(UnexpectedPayload(|rest|))
  {
  }

  datatype HandleError = ReturnedNone | ReturnedErr(value: Value) | UnexpectedShape

  function ExtractHandle(v: Value): Result<nat, HandleError> {
    match v
    case Uint(W64, h) => Success(h)
    case Present(Uint(W64, h)) => Success(h)
    case Ok(Uint(W64, h)) => Success(h)
    case Absent => Failure(ReturnedNone)
    case Err(e) => Failure(ReturnedErr(e))
    case _ => Failure(UnexpectedShape)
  }

  /** The three shapes a constructor returns a handle in: bare, optional, or in a `Result`. */
  predicate CarriesHandle(v: Value, h: nat) {
    v in {Uint(W64, h), Present(Uint(W64, h)), Ok(Uint(W64, h))}
  }

  /** Exactly the three shapes give a handle, the one they carry; the failures tell what came instead. */
  lemma ExtractHandleIff(v: Value, h: nat)
    ensures ExtractHandle(v) == Success(h) <==> CarriesHandle(v, h)
    ensures ExtractHandle(v) == Failure(ReturnedNone) <==> v == Absent
    ensures forall e: Value :: ExtractHandle(v) == Failure(ReturnedErr(e)) <==> v == Err(e)
    ensures ExtractHandle(v) == Failure(UnexpectedShape) <==>
              v != Absent && !v.Err? && forall g: nat :: !CarriesHandle(v, g)
  {
    var inner := if v.Present? || v.Ok? then v.inner else v;
    if inner.Uint? && inner.width == W64 { assert CarriesHandle(v, inner.n); }
  }

  /** A tagged reply decodes to the value the server serialized, whichever variant and however long. */
  lemma {:induction false} ReplyRoundTrip(s: Schema, v: Value)
    requires Fits(s, v)
    ensures DecodeReply(Some(s), [0] + Wire(s, v)) == Success(v)
  {
    hide Fits, Wire, Decode, Canon;
    WireDecodes(s, v, []);
    assert ([0 as Byte] + Wire(s, v))[1..] == Wire(s, v) + [];
  }

  /**
   A handle travels: what a constructor returns, bare, optional or in a `Result`, is the first element
   of the tuple the server reads for a later message on it.
   */
  lemma {:induction false} HandleTravels(s: Schema, v: Value, h: nat, params: seq<FieldType>, fields: seq<Field>)
    requires Fits(s, v) && CarriesHandle(v, h) && h < Bound(W64) && ArgsWellTyped(params, fields)
    ensures var reply := DecodeReply(Some(s), [0] + Wire(s, v));
            && reply.Success? && ExtractHandle(reply.value) == Success(h)
            && var bytes := Args(params, Some(ExtractHandle(reply.value).value), Struct(fields));
               && bytes.Success?
               && Reads(Decode(TTuple([TUint(W64)] + ParamTypes(params)), bytes.value),
                        Tuple([Uint(W64, h)] + OrderedArgs(params, fields)), [])
  {
    hide Fits, Wire, Decode, Canon, Args, Decoded, ParamTypes, OrderedArgs, ArgsWellTyped, Reads;
    ReplyRoundTrip(s, v);
    ExtractHandleIff(v, h);
    ServerReadsArgs(params, Some(h), fields, []);
    var bytes := Args(params, Some(h), Struct(fields)).value;
    assert bytes + [] == bytes;
  }
}
