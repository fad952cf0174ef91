/** Little-endian fields inside byte sequences. */
module LittleEndian {
  import BitOps

  type Byte = bv8

  const U16_LIMIT: nat := 0x1_0000
  const U32_LIMIT: nat := 0x1_0000_0000

  function Limit(n: nat): (l: nat)
    ensures l > 0
  {
    if n == 0 then 1 else 256 * Limit(n - 1)
  }

  /** The low `n` bytes of `v`, least significant first. */
  function Encode(v: nat, n: nat): (b: seq<Byte>)
    ensures |b| == n
  {
    if n == 0 then [] else [(v % 256) as bv8] + Encode(v / 256, n - 1)
  }

  function Decode(b: seq<Byte>): nat {
    if b == [] then 0 else b[0] as nat + 256 * Decode(b[1..])
  }

  lemma ByteOfNat(x: nat)
    requires x < 256
    ensures (x as bv8) as nat == x
  {
    assert x % 256 == x;
  }

  lemma {:induction false} RoundTrip(v: nat, n: nat)
    requires v < Limit(n)
    ensures Decode(Encode(v, n)) == v
  {
    if n > 0 {
      RoundTrip(v / 256, n - 1);
      ByteOfNat(v % 256);
      assert Encode(v, n)[1..] == Encode(v / 256, n - 1);
    }
  }

  /** Byte `k` counts multiples of 256 to the power `k`. */
  lemma {:induction false} ByteAt(v: nat, n: nat, k: nat)
    requires k < n
    ensures Encode(v, n)[k] as nat == v / Limit(k) % 256
  {
    if k == 0 {
      ByteOfNat(v % 256);
    } else {
      ByteAt(v / 256, n - 1, k - 1);
      DivideTwice(v, Limit(k - 1));
    }
  }

  lemma {:induction false} DivideTwice(v: nat, d: nat)
    requires d > 0
    ensures v / 256 / d == v / (256 * d)
  {
    var q, r := v / 256 / d, v / 256 % d;
    assert v / 256 == q * d + r;
    assert v == 256 * (v / 256) + v % 256;
    assert v == q * (256 * d) + (256 * r + v % 256);
    BitOps.DivModUnique(v, 256 * d, q, 256 * r + v % 256);
  }

  lemma Limits()
    ensures Limit(2) == U16_LIMIT && Limit(4) == U32_LIMIT
  {
    assert Limit(1) == 256;
    assert Limit(2) == 0x1_0000;
    assert Limit(3) == 0x100_0000;
  }

  function Read(data: seq<Byte>, offset: nat, n: nat): nat
    requires offset + n <= |data|
  {
    Decode(data[offset..offset + n])
  }

  /** `bytes` sit in `data` at `offset`. */
  predicate Holds(data: seq<Byte>, offset: nat, bytes: seq<Byte>) {
    offset + |bytes| <= |data| && data[offset..offset + |bytes|] == bytes
  }

  lemma {:induction false} ReadHeld(data: seq<Byte>, offset: nat, v: nat, n: nat)
    requires Holds(data, offset, Encode(v, n)) && v < Limit(n)
    ensures Read(data, offset, n) == v
  {
    RoundTrip(v, n);
  }

  lemma HoldsParts(data: seq<Byte>, offset: nat, s: seq<Byte>, t: seq<Byte>)
    requires Holds(data, offset, s + t)
    ensures Holds(data, offset, s) && Holds(data, offset + |s|, t)
  {
    var d := data[offset..offset + |s + t|];
    assert data[offset..offset + |s|] == d[..|s|] == s;
    assert data[offset + |s|..offset + |s| + |t|] == d[|s|..] == t;
  }

  /** Overwrites `data` from `offset` on with `bytes`. */
  function Blit(data: seq<Byte>, offset: nat, bytes: seq<Byte>): (r: seq<Byte>)
    requires offset + |bytes| <= |data|
    ensures |r| == |data|
  {
    data[..offset] + bytes + data[offset + |bytes|..]
  }

  lemma BlitHolds(data: seq<Byte>, offset: nat, bytes: seq<Byte>)
    requires offset + |bytes| <= |data|
    ensures Holds(Blit(data, offset, bytes), offset, bytes)
  {
  }

  /** Writing elsewhere disturbs nothing. */
  lemma BlitKeeps(data: seq<Byte>, offset: nat, bytes: seq<Byte>, at: nat, held: seq<Byte>)
    requires offset + |bytes| <= |data| && Holds(data, at, held)
    requires at + |held| <= offset || offset + |bytes| <= at
    ensures Holds(Blit(data, offset, bytes), at, held)
  {
    var r := Blit(data, offset, bytes);
    forall i | 0 <= i < |held| ensures r[at + i] == held[i] {
      assert data[at + i] == data[at..at + |held|][i];
    }
    assert r[at..at + |held|] == held;
  }
}
