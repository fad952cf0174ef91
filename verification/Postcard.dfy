/**
 Postcard's integer encodings: variable-length unsigned integers and zigzag signed integers, as in
 the sections "Varint Encoded Integers" and "Zigzag encoded Signed Integers" of the Postcard wire
 format specification.
 */
module Postcard {
  import opened Wrappers
  import LittleEndian

  type Byte = LittleEndian.Byte

  datatype DecodeError =
    | UnexpectedEnd
    | BadVarint
    | BadBool
    | BadOption
    | BadChar
    | MissingStructField
    | UnknownVariant(index: nat)
    | Unsupported

  /** A decoded item and the bytes behind it. */
  datatype Item<T> = Item(value: T, rest: seq<Byte>)

  type Step<T> = Result<Item<T>, DecodeError>

  datatype Width = W8 | W16 | W32 | W64 | W128

  function Bound(w: Width): nat {
    match w
    case W8 => 0x100
    case W16 => 0x1_0000
    case W32 => 0x1_0000_0000
    case W64 => 0x1_0000_0000_0000_0000
    case W128 => 0x1_0000_0000_0000_0000_0000_0000_0000_0000
  }

  /** Longest encoding of a varint of this width. */
  function MaxBytes(w: Width): (n: nat)
    ensures n > 0
  {
    match w
    case W8 => 1
    case W16 => 3
    case W32 => 5
    case W64 => 10
    case W128 => 19
  }

  /** Largest last byte of a longest encoding. */
  function LastByte(w: Width): (b: nat)
    ensures b < 256
  {
    match w
    case W8 => 255
    case W16 => 3
    case W32 => 15
    case W64 => 1
    case W128 => 3
  }

  function ValueOf(b: Byte): (n: nat)
    ensures n < 256
  {
    b as nat
  }

  function ByteOf(x: nat): (b: Byte)
    requires x < 256
    ensures ValueOf(b) == x
  {
    LittleEndian.ByteOfNat(x);
    x as Byte
  }

  function Varint(n: nat): (b: seq<Byte>)
    ensures b != []
  {
    if n < 128 then [ByteOf(n)] else [ByteOf(n % 128 + 128)] + Varint(n / 128)
  }

  function ReadVarint(k: nat, last: nat, bytes: seq<Byte>): (r: Step<nat>)
    requires k > 0
    ensures r.Success? ==> |r.value.rest| < |bytes|
    decreases k
  {
    if bytes == [] then Failure(UnexpectedEnd)
    else
      var b := ValueOf(bytes[0]);
      if b < 128 then
        if k == 1 && b > last then Failure(BadVarint) else Success(Item(b, bytes[1..]))
      else if k == 1 then Failure(BadVarint)
      else
        var r := ReadVarint(k - 1, last, bytes[1..]);
        if r.Failure? then r else Success(Item(b - 128 + 128 * r.value.value, r.value.rest))
  }

  /** Integers that `k` bytes can carry when the last one is at most `last`. */
  function Capacity(k: nat, last: nat): nat
    requires k > 0
  {
    if k == 1 then last + 1 else 128 * Capacity(k - 1, last)
  }

  lemma {:induction false} VarintReads(n: nat, k: nat, last: nat, rest: seq<Byte>)
    requires k > 0 && n < Capacity(k, last) && last < 128
    ensures ReadVarint(k, last, Varint(n) + rest) == Success(Item(n, rest))
    decreases k
  {
    hide ValueOf, ByteOf;
    var bytes := Varint(n) + rest;
    if n < 128 {
      assert bytes[1..] == rest;
    } else {
      assert bytes[1..] == Varint(n / 128) + rest;
      VarintReads(n / 128, k - 1, last, rest);
    }
  }

  /** Reading never takes fewer bytes than writing the result would. */
  lemma {:induction false} VarintIsShortest(k: nat, last: nat, bytes: seq<Byte>)
    requires k > 0 && ReadVarint(k, last, bytes).Success?
    ensures var i := ReadVarint(k, last, bytes).value; |Varint(i.value)| + |i.rest| <= |bytes|
    decreases k
  {
    hide ValueOf, ByteOf;
    if ValueOf(bytes[0]) >= 128 {
      VarintIsShortest(k - 1, last, bytes[1..]);
      VarintSplits(ValueOf(bytes[0]) - 128, ReadVarint(k - 1, last, bytes[1..]).value.value);
    }
  }

  lemma Capacities(w: Width)
    requires w != W8
    ensures Capacity(MaxBytes(w), LastByte(w)) == Bound(w)
  {
    assert Capacity(3, 3) == Bound(W16);
    assert Capacity(5, 15) == Bound(W32);
    assert Capacity(10, 1) == Bound(W64);
    assert Capacity(10, 3) == 2 * Bound(W64);
    assert Capacity(14, 3) == 0x200000000000000000000000;
    assert Capacity(19, 3) == Bound(W128);
  }

  // --- Fixed-width integers ----------------------------------------------------------------

  function WriteUint(w: Width, n: nat): (b: seq<Byte>)
    ensures b != []
  {
    if w == W8 then [ByteOf(n % 256)] else Varint(n)
  }

  function ReadUint(w: Width, bytes: seq<Byte>): (r: Step<nat>)
    ensures r.Success? ==> |r.value.rest| < |bytes|
  {
    if w != W8 then ReadVarint(MaxBytes(w), LastByte(w), bytes)
    else if bytes == [] then Failure(UnexpectedEnd)
    else Success(Item(ValueOf(bytes[0]), bytes[1..]))
  }

  predicate InRange(w: Width, i: int) {
    -(Bound(w) as int) <= 2 * i < Bound(w)
  }

  function ZigZag(i: int): nat {
    if i >= 0 then 2 * i else -2 * i - 1
  }

  function UnZigZag(n: nat): int {
    if n % 2 == 0 then n / 2 else -(n / 2) - 1
  }

  /** One byte integers are their two's complement byte, wider ones a zigzag varint. */
  function WriteSint(w: Width, i: int): (b: seq<Byte>)
    ensures b != []
  {
    if w == W8 then [ByteOf(i % 256)] else Varint(ZigZag(i))
  }

  function ReadSint(w: Width, bytes: seq<Byte>): (r: Step<int>)
    ensures r.Success? ==> |r.value.rest| < |bytes|
  {
    var u := ReadUint(w, bytes);
    if u.Failure? then Failure(u.error)
    else if w == W8 then Success(Item(if u.value.value < 128 then u.value.value else u.value.value - 256, u.value.rest))
    else Success(Item(UnZigZag(u.value.value), u.value.rest))
  }

  lemma UintReads(w: Width, n: nat, rest: seq<Byte>)
    requires n < Bound(w)
    ensures ReadUint(w, WriteUint(w, n) + rest) == Success(Item(n, rest))
  {
    if w == W8 {
      assert n % 256 == n;
      assert ([ByteOf(n)] + rest)[1..] == rest;
    } else {
      hide ReadVarint, Varint;
      Capacities(w);
      VarintReads(n, MaxBytes(w), LastByte(w), rest);
    }
  }

  lemma SintReads(w: Width, i: int, rest: seq<Byte>)
    requires InRange(w, i)
    ensures ReadSint(w, WriteSint(w, i) + rest) == Success(Item(i, rest))
  {
    hide Varint, ReadUint;
    if w == W8 {
      UintReads(w, i % 256, rest);
      assert WriteUint(w, i % 256) == [ByteOf(i % 256)];
    } else {
      UintReads(w, ZigZag(i), rest);
      assert WriteUint(w, ZigZag(i)) == Varint(ZigZag(i));
    }
  }

  /** Reading an integer never takes fewer bytes than writing the result would. */
  lemma UintIsShortest(w: Width, bytes: seq<Byte>)
    requires ReadUint(w, bytes).Success?
    ensures var i := ReadUint(w, bytes).value; |WriteUint(w, i.value)| + |i.rest| <= |bytes|
  {
    hide ReadVarint, Varint;
    if w != W8 { VarintIsShortest(MaxBytes(w), LastByte(w), bytes); }
  }

  lemma SintIsShortest(w: Width, bytes: seq<Byte>)
    requires ReadSint(w, bytes).Success?
    ensures var i := ReadSint(w, bytes).value; |WriteSint(w, i.value)| + |i.rest| <= |bytes|
  {
    hide ReadUint, Varint;
    UintIsShortest(w, bytes);
    var n := ReadUint(w, bytes).value.value;
    assert ZigZag(UnZigZag(n)) == n;
  }

  // --- Characters ----------------------------------------------------------------------------

  /** Unicode scalar values: code points that are not surrogates. */
  predicate IsScalar(c: nat) {
    c < 0xD800 || 0xE000 <= c < 0x11_0000
  }

  type Scalar = c: nat | IsScalar(c)

  function Utf8(c: Scalar): (b: seq<Byte>)
    ensures 1 <= |b| <= 4
  {
    assert IsScalar(c);
    if c < 0x80 then [ByteOf(c)]
    else if c < 0x800 then [ByteOf(0xC0 + c / 0x40), Continuation(c)]
    else if c < 0x1_0000 then [ByteOf(0xE0 + c / 0x1000), Continuation(c / 0x40), Continuation(c)]
    else [ByteOf(0xF0 + c / 0x4_0000), Continuation(c / 0x1000), Continuation(c / 0x40), Continuation(c)]
  }

  function Continuation(c: nat): Byte {
    ByteOf(0x80 + c % 0x40)
  }

  /** The low six bits of a continuation byte. */
  function Six(b: Byte): Option<nat> {
    if 0x80 <= ValueOf(b) < 0xC0 then Some(ValueOf(b) - 0x80) else None
  }

  /** The first scalar value of some bytes, if they begin with a well-formed one. */
  function FirstScalar(b: seq<Byte>): (r: Option<Scalar>)
    ensures r.Some? ==> |Utf8(r.value)| <= |b|
  {
    if b == [] then None
    else
      var x := ValueOf(b[0]);
      if x < 0x80 then Some(x)
      else if 0xC2 <= x < 0xE0 && |b| > 1 && Six(b[1]).Some? then Some((x - 0xC0) * 0x40 + Six(b[1]).value)
      else if 0xE0 <= x < 0xF0 && |b| > 2 && Six(b[1]).Some? && Six(b[2]).Some? then
        var c := (x - 0xE0) * 0x1000 + Six(b[1]).value * 0x40 + Six(b[2]).value;
        if 0x800 <= c && IsScalar(c) then Some(c) else None
      else if 0xF0 <= x < 0xF5 && |b| > 3 && Six(b[1]).Some? && Six(b[2]).Some? && Six(b[3]).Some? then
        var c := (x - 0xF0) * 0x4_0000 + Six(b[1]).value * 0x1000 + Six(b[2]).value * 0x40 + Six(b[3]).value;
        if 0x1_0000 <= c && IsScalar(c) then Some(c) else None
      else None
  }

  predicate ValidUtf8(b: seq<Byte>)
    decreases |b|
  {
    b == [] || (FirstScalar(b).Some? && ValidUtf8(b[|Utf8(FirstScalar(b).value)|..]))
  }

  function WriteChar(c: Scalar): seq<Byte> {
    Varint(|Utf8(c)|) + Utf8(c)
  }

  /** A string of at most four bytes, of which the first character counts. */
  function ReadChar(bytes: seq<Byte>): Step<Scalar> {
    var n := ReadUint(W64, bytes);
    if n.Failure? then Failure(n.error)
    else if n.value.value > 4 then Failure(BadChar)
    else if |n.value.rest| < n.value.value then Failure(UnexpectedEnd)
    else
      var text := n.value.rest[..n.value.value];
      if ValidUtf8(text) && text != [] then Success(Item(FirstScalar(text).value, n.value.rest[n.value.value..]))
      else Failure(BadChar)
  }

  lemma SixOf(c: nat)
    ensures Six(Continuation(c)) == Some(c % 0x40)
  {
    hide ByteOf, ValueOf;
  }

  lemma TwoByteScalar(c: nat)
    requires 0x80 <= c < 0x800
    ensures FirstScalar(Utf8(c)) == Some(c)
  {
    hide ByteOf, ValueOf, Six, Continuation;
    SixOf(c);
    var q, r := c / 0x40, c % 0x40;
    assert c == q * 0x40 + r && 2 <= q < 0x20;
  }

  lemma ThreeByteScalar(c: nat)
    requires 0x800 <= c < 0x1_0000 && IsScalar(c)
    ensures FirstScalar(Utf8(c)) == Some(c)
  {
    hide ByteOf, ValueOf, Six, Continuation;
    SixOf(c);
    SixOf(c / 0x40);
    var q, r := c / 0x40, c % 0x40;
    var p, t := q / 0x40, q % 0x40;
    assert c / 0x1000 == p && c == p * 0x1000 + t * 0x40 + r && p < 0x10;
  }

  lemma FourByteScalar(c: nat)
    requires 0x1_0000 <= c && IsScalar(c)
    ensures FirstScalar(Utf8(c)) == Some(c)
  {
    hide ByteOf, ValueOf, Six, Continuation;
    SixOf(c);
    SixOf(c / 0x40);
    SixOf(c / 0x1000);
    var q, r := c / 0x40, c % 0x40;
    var p, t := q / 0x40, q % 0x40;
    var o, u := p / 0x40, p % 0x40;
    assert c / 0x1000 == p && c / 0x4_0000 == o && c == o * 0x4_0000 + u * 0x1000 + t * 0x40 + r && o < 5;
  }

  /** The first scalar value of a character's bytes is that character. */
  lemma Utf8Reads(c: Scalar)
    ensures FirstScalar(Utf8(c)) == Some(c) && ValidUtf8(Utf8(c))
  {
    if c >= 0x1_0000 {
      FourByteScalar(c);
    } else if c >= 0x800 {
      ThreeByteScalar(c);
    } else if c >= 0x80 {
      TwoByteScalar(c);
    }
    hide Utf8, FirstScalar;
    assert Utf8(c)[|Utf8(c)|..] == [];
  }

  lemma CharReads(c: Scalar, rest: seq<Byte>)
    ensures ReadChar(WriteChar(c) + rest) == Success(Item(c, rest))
  {
    hide ReadUint, Varint, Utf8, ValidUtf8, FirstScalar;
    var b := Utf8(c);
    assert WriteChar(c) + rest == Varint(|b|) + (b + rest);
    UintReads(W64, |b|, b + rest);
    assert WriteUint(W64, |b|) == Varint(|b|);
    assert (b + rest)[..|b|] == b && (b + rest)[|b|..] == rest;
    Utf8Reads(c);
  }

  // --- Shortest encodings ----------------------------------------------------------------------

  lemma ReadVarintStep(k: nat, last: nat, bytes: seq<Byte>)
    requires k > 0 && ReadVarint(k, last, bytes).Success?
    ensures bytes != []
    ensures var b := ValueOf(bytes[0]);
            if b < 128 then ReadVarint(k, last, bytes).value == Item(b, bytes[1..])
            else
              && k > 1 && ReadVarint(k - 1, last, bytes[1..]).Success?
              && var tail := ReadVarint(k - 1, last, bytes[1..]).value;
                 ReadVarint(k, last, bytes).value == Item(b - 128 + 128 * tail.value, tail.rest)
  {
    hide ValueOf;
  }

  /** A reading that took no more bytes than writing would has read exactly the written bytes. */
  lemma {:induction false} VarintUnique(k: nat, last: nat, bytes: seq<Byte>)
    requires k > 0 && ReadVarint(k, last, bytes).Success?
    requires var i := ReadVarint(k, last, bytes).value; |Varint(i.value)| + |i.rest| == |bytes|
    ensures var i := ReadVarint(k, last, bytes).value; bytes == Varint(i.value) + i.rest
    decreases k
  {
    hide ValueOf, ByteOf, Varint, ReadVarint;
    ReadVarintStep(k, last, bytes);
    var b := ValueOf(bytes[0]);
    ByteOfValue(bytes[0]);
    if b >= 128 {
      var tail := ReadVarint(k - 1, last, bytes[1..]).value;
      VarintIsShortest(k - 1, last, bytes[1..]);
      VarintSplits(b - 128, tail.value);
      VarintUnique(k - 1, last, bytes[1..]);
      assert bytes == [bytes[0]] + bytes[1..];
    } else {
      SmallVarint(b);
      assert bytes == [bytes[0]] + bytes[1..];
    }
  }

  lemma {:induction false} SmallVarint(n: nat)
    requires n < 128
    ensures Varint(n) == [ByteOf(n)]
  {
  }

  lemma ByteOfValue(b: Byte)
    ensures ByteOf(ValueOf(b)) == b
  {
    var n := b as nat;
    assert n % 256 == n;
  }

  lemma VarintSplits(low: nat, high: nat)
    requires low < 128
    ensures |Varint(low + 128 * high)| <= 1 + |Varint(high)|
    ensures |Varint(low + 128 * high)| == 1 + |Varint(high)| ==>
            Varint(low + 128 * high) == [ByteOf(low + 128)] + Varint(high)
  {
    hide ByteOf;
    var n := low + 128 * high;
    if n >= 128 {
      assert n / 128 == high && n % 128 == low;
    }
  }

  lemma UintUnique(w: Width, bytes: seq<Byte>)
    requires ReadUint(w, bytes).Success?
    requires var i := ReadUint(w, bytes).value; |WriteUint(w, i.value)| + |i.rest| == |bytes|
    ensures var i := ReadUint(w, bytes).value; bytes == WriteUint(w, i.value) + i.rest
  {
    hide ReadVarint, Varint, ByteOf, ValueOf;
    if w != W8 {
      VarintUnique(MaxBytes(w), LastByte(w), bytes);
    } else {
      ByteOfValue(bytes[0]);
      assert ValueOf(bytes[0]) % 256 == ValueOf(bytes[0]);
      assert bytes == [bytes[0]] + bytes[1..];
    }
  }

  lemma SintUnique(w: Width, bytes: seq<Byte>)
    requires ReadSint(w, bytes).Success?
    requires var i := ReadSint(w, bytes).value; |WriteSint(w, i.value)| + |i.rest| == |bytes|
    ensures var i := ReadSint(w, bytes).value; bytes == WriteSint(w, i.value) + i.rest
  {
    hide ReadUint, WriteUint, WriteSint, UnZigZag;
    var n := ReadUint(w, bytes).value.value;
    if w == W8 { ReadByteBound(bytes); }
    SintBytes(w, n);
    UintUnique(w, bytes);
  }

  lemma SintBytes(w: Width, n: nat)
    requires w == W8 ==> n < 256
    ensures WriteSint(w, if w != W8 then UnZigZag(n) else if n < 128 then n else n - 256) == WriteUint(w, n)
  {
    hide Varint, ByteOf, ZigZag, UnZigZag;
    if w == W8 {
      var i := if n < 128 then n else n - 256;
      WrapsToByte(n);
      assert WriteSint(w, i) == [ByteOf(i % 256)];
    } else {
      ZigZagUndoes(n);
    }
  }

  lemma WrapsToByte(n: nat)
    requires n < 256
    ensures (if n < 128 then n else n - 256) % 256 == n % 256
  {
  }

  lemma ZigZagUndoes(n: nat)
    ensures ZigZag(UnZigZag(n)) == n
  {
  }

  lemma ReadByteBound(bytes: seq<Byte>)
    requires ReadUint(W8, bytes).Success?
    ensures ReadUint(W8, bytes).value.value < 256
  {
  }

  lemma SpellTwo(p: nat, r: nat)
    requires 2 <= p < 0x20 && r < 0x40
    ensures Utf8(p * 0x40 + r) == [ByteOf(0xC0 + p), ByteOf(0x80 + r)]
  {
    hide ByteOf;
    Horner(p, r);
  }

  lemma SpellThree(p: nat, t: nat, r: nat)
    requires p < 0x10 && t < 0x40 && r < 0x40 && 0x800 <= p * 0x1000 + t * 0x40 + r
             && IsScalar(p * 0x1000 + t * 0x40 + r)
    ensures Utf8(p * 0x1000 + t * 0x40 + r) == [ByteOf(0xE0 + p), ByteOf(0x80 + t), ByteOf(0x80 + r)]
  {
    hide ByteOf;
    ThreeDigits(p, t, r);
  }

  lemma ThreeDigits(p: nat, t: nat, r: nat)
    requires t < 0x40 && r < 0x40
    ensures var c := p * 0x1000 + t * 0x40 + r; c / 0x1000 == p && c / 0x40 % 0x40 == t && c % 0x40 == r
  {
    var q := p * 0x40 + t;
    assert p * 0x1000 + t * 0x40 + r == q * 0x40 + r;
    Horner(q, r);
    Horner(p, t);
    DivTwice(q * 0x40 + r);
  }

  lemma SpellFour(o: nat, u: nat, t: nat, r: nat)
    requires o < 5 && u < 0x40 && t < 0x40 && r < 0x40
    requires var c := o * 0x4_0000 + u * 0x1000 + t * 0x40 + r; 0x1_0000 <= c && IsScalar(c)
    ensures Utf8(o * 0x4_0000 + u * 0x1000 + t * 0x40 + r) ==
            [ByteOf(0xF0 + o), ByteOf(0x80 + u), ByteOf(0x80 + t), ByteOf(0x80 + r)]
  {
    hide ByteOf;
    FourDigits(o, u, t, r);
  }

  lemma FourDigits(o: nat, u: nat, t: nat, r: nat)
    requires u < 0x40 && t < 0x40 && r < 0x40
    ensures var c := o * 0x4_0000 + u * 0x1000 + t * 0x40 + r;
            c / 0x4_0000 == o && c / 0x1000 % 0x40 == u && c / 0x40 % 0x40 == t && c % 0x40 == r
  {
    var c := o * 0x4_0000 + u * 0x1000 + t * 0x40 + r;
    var p, q := o * 0x40 + u, o * 0x1000 + u * 0x40 + t;
    assert c == q * 0x40 + r;
    Horner(q, r);
    assert q == p * 0x40 + t;
    Horner(p, t);
    Horner(o, u);
    DivTwice(c);
    DivThrice(c);
  }

  lemma DivThrice(c: nat)
    ensures c / 0x4_0000 == c / 0x40 / 0x40 / 0x40
  {
    DivTwice(c);
  }

  lemma Horner(q: nat, r: nat)
    requires r < 0x40
    ensures (q * 0x40 + r) / 0x40 == q && (q * 0x40 + r) % 0x40 == r
  {
  }

  lemma DivTwice(c: nat)
    ensures c / 0x1000 == c / 0x40 / 0x40
  {
  }

  lemma SixIs(b: Byte)
    requires Six(b).Some?
    ensures Six(b).value < 0x40 && ByteOf(0x80 + Six(b).value) == b
  {
    hide ByteOf, ValueOf;
    ByteOfValue(b);
  }

  /** A well-formed first character is spelled in the one way `Utf8` spells it. */
  lemma ScalarBytes(b: seq<Byte>)
    requires FirstScalar(b).Some?
    ensures |Utf8(FirstScalar(b).value)| <= |b| && Utf8(FirstScalar(b).value) == b[..|Utf8(FirstScalar(b).value)|]
  {
    hide ByteOf, ValueOf, Six, Utf8, IsScalar;
    var x := ValueOf(b[0]);
    ByteOfValue(b[0]);
    if x >= 0xF0 {
      FourBytes(b);
    } else if x >= 0xE0 {
      SixIs(b[1]); SixIs(b[2]);
      SpellThree(x - 0xE0, Six(b[1]).value, Six(b[2]).value);
    } else if x >= 0xC2 {
      SixIs(b[1]);
      SpellTwo(x - 0xC0, Six(b[1]).value);
    } else {
      SpellOne(x);
    }
  }

  lemma FourBytes(b: seq<Byte>)
    requires FirstScalar(b).Some? && ValueOf(b[0]) >= 0xF0
    ensures |b| >= 4 && Utf8(FirstScalar(b).value) == b[..4]
  {
    hide ByteOf, ValueOf, Six, Utf8, IsScalar;
    ByteOfValue(b[0]);
    SixIs(b[1]); SixIs(b[2]); SixIs(b[3]);
    SpellFour(ValueOf(b[0]) - 0xF0, Six(b[1]).value, Six(b[2]).value, Six(b[3]).value);
  }

  lemma SpellOne(c: nat)
    requires c < 0x80
    ensures Utf8(c) == [ByteOf(c)]
  {
  }

  /** Reading a character takes no fewer bytes than writing it, and the same bytes if it takes as few. */
  lemma CharIsShortest(bytes: seq<Byte>)
    requires ReadChar(bytes).Success?
    ensures var i := ReadChar(bytes).value;
            && |WriteChar(i.value)| + |i.rest| <= |bytes|
            && (|WriteChar(i.value)| + |i.rest| == |bytes| ==> bytes == WriteChar(i.value) + i.rest)
  {
    hide ReadUint, Varint, Utf8, FirstScalar, ByteOf, ValueOf, ValidUtf8, IsScalar;
    var n := ReadUint(W64, bytes).value;
    var i := ReadChar(bytes).value;
    var text := n.rest[..n.value];
    TextStarts(text);
    ScalarBytes(text);
    var len := |Utf8(i.value)|;
    SmallVarint(len);
    UintIsShortest(W64, bytes);
    assert WriteUint(W64, n.value) == Varint(n.value);
    SmallVarint(n.value);
    assert n.rest == text + i.rest;
    if |WriteChar(i.value)| + |i.rest| == |bytes| {
      assert len == n.value;
      UintUnique(W64, bytes);
      assert text[..len] == text;
    }
  }

  lemma {:induction false} TextStarts(text: seq<Byte>)
    requires ValidUtf8(text) && text != []
    ensures FirstScalar(text).Some?
  {
  }
}
