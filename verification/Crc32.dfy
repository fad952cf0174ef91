/**
 CRC-32 (IEEE 802.3, reflected) as the firmware image uses it: a table-driven
 update that refines the bit-by-bit register, and what the register can detect.
 */
module Crc32 {

  type Byte = bv8

  const POLY: bv32 := 0xEDB8_8320
  const INIT: bv32 := 0xFFFF_FFFF

  function Xor(a: bv32, b: bv32): bv32 { a ^ b }

  function Round(c: bv32): bv32 {
    if c & 1 != 0 then (c >> 1) ^ POLY else c >> 1
  }

  function Rounds(c: bv32, n: nat): bv32
    decreases n
  {
    if n == 0 then c else Rounds(Round(c), n - 1)
  }

  function Low(b: Byte): bv32 { b as bv32 }

  /** The bit-by-bit register. */
  function Absorb(c: bv32, b: Byte): bv32 {
    Rounds(Xor(c, Low(b)), 8)
  }

  function Fold(c: bv32, data: seq<Byte>): bv32 {
    if data == [] then c else Absorb(Fold(c, data[..|data| - 1]), data[|data| - 1])
  }

  const CHECK: seq<Byte> := [0x31, 0x32, 0x33, 0x34, 0x35, 0x36, 0x37, 0x38, 0x39]

  /** The check value of the CRC-32 of IEEE 802.3: the digits 1 to 9, with the register inverted at the end. */
  lemma {:induction false} CheckValue()
    ensures Xor(Fold(INIT, CHECK), INIT) == 0xCBF4_3926
  {
    hide Absorb;
    CheckStep(0, 0xFFFF_FFFF, 0x7C23_1048) by { AbsorbIs(0xFFFF_FFFF, 0x31); }
    CheckStep(1, 0x7C23_1048, 0xB0AC_BB32) by { AbsorbIs(0x7C23_1048, 0x32); }
    CheckStep(2, 0xB0AC_BB32, 0x77B7_9C2D) by { AbsorbIs(0xB0AC_BB32, 0x33); }
    CheckStep(3, 0x77B7_9C2D, 0x641C_1F5C) by { AbsorbIs(0x77B7_9C2D, 0x34); }
    CheckStep(4, 0x641C_1F5C, 0x340A_C5E3) by { AbsorbIs(0x641C_1F5C, 0x35); }
    CheckStep(5, 0x340A_C5E3, 0xF68D_2C9E) by { AbsorbIs(0x340A_C5E3, 0x36); }
    CheckStep(6, 0xF68D_2C9E, 0xAFFC_9660) by { AbsorbIs(0xF68D_2C9E, 0x37); }
    CheckStep(7, 0xAFFC_9660, 0x651F_2550) by { AbsorbIs(0xAFFC_9660, 0x38); }
    CheckStep(8, 0x651F_2550, 0x340B_C6D9) by { AbsorbIs(0x651F_2550, 0x39); }
    assert CHECK[..9] == CHECK;
  }

  lemma {:induction false} CheckStep(n: nat, before: bv32, after: bv32)
    requires n < |CHECK| && Fold(INIT, CHECK[..n]) == before && Absorb(before, CHECK[n]) == after
    ensures Fold(INIT, CHECK[..n + 1]) == after
  {
    hide Absorb;
    assert CHECK[..n + 1][..n] == CHECK[..n];
  }

  lemma AbsorbIs(c: bv32, b: Byte)
    ensures Absorb(c, b) == Round(Round(Round(Round(Round(Round(Round(Round(c ^ (b as bv32)))))))))
  {
    hide Round;
    var x := Xor(c, Low(b));
    assert Rounds(x, 8) == Rounds(Round(Round(x)), 6);
    assert Rounds(Round(Round(x)), 6) == Rounds(Round(Round(Round(Round(x)))), 4);
  }

  // --- Group laws ------------------------------------------------------------------

  lemma XorAssoc(a: bv32, b: bv32, c: bv32)
    ensures Xor(Xor(a, b), c) == Xor(a, Xor(b, c))
  {
  }

  lemma XorComm(a: bv32, b: bv32)
    ensures Xor(a, b) == Xor(b, a)
  {
  }

  lemma XorSelf(a: bv32)
    ensures Xor(a, a) == 0 && Xor(a, 0) == a && Xor(0, a) == a
  {
  }

  lemma XorZero(a: bv32, b: bv32)
    requires Xor(a, b) == 0
    ensures a == b
  {
  }

  lemma XorCancel(a: bv32, b: bv32, x: bv32)
    requires Xor(a, x) == Xor(b, x)
    ensures a == b
  {
    hide Xor;
    XorAssoc(a, x, x);
    XorAssoc(b, x, x);
    XorSelf(x);
    XorSelf(a);
    XorSelf(b);
  }

  lemma XorSwap(a: bv32, b: bv32, c: bv32, d: bv32)
    ensures Xor(Xor(a, b), Xor(c, d)) == Xor(Xor(a, c), Xor(b, d))
  {
    hide Xor;
    XorAssoc(a, b, Xor(c, d));
    XorAssoc(b, c, d);
    XorComm(b, c);
    XorAssoc(c, b, d);
    XorAssoc(a, c, Xor(b, d));
  }

  lemma XorIs(a: bv32, b: bv32)
    ensures Xor(a, b) == a ^ b
  {
  }

  // --- Rounds are linear and lose nothing --------------------------------------------

  function Shifted(c: bv32): bv32 { c >> 1 }

  function Feedback(c: bv32): bv32 { if c & 1 != 0 then POLY else 0 }

  lemma RoundSplits(c: bv32)
    ensures Round(c) == Xor(Shifted(c), Feedback(c))
  {
    hide Xor;
    XorIs(Shifted(c), POLY);
    XorSelf(Shifted(c));
  }

  lemma ShiftLinear(a: bv32, b: bv32)
    ensures Shifted(Xor(a, b)) == Xor(Shifted(a), Shifted(b))
  {
  }

  lemma LowBit(c: bv32)
    ensures c & 1 == 0 || c & 1 == 1
  {
  }

  lemma LowBitXor(a: bv32, b: bv32)
    ensures (a ^ b) & 1 == (a & 1) ^ (b & 1)
  {
  }

  lemma FeedbackLinear(a: bv32, b: bv32)
    ensures Feedback(Xor(a, b)) == Xor(Feedback(a), Feedback(b))
  {
    LowBit(a);
    LowBit(b);
    LowBitXor(a, b);
    XorSelf(POLY);
  }

  lemma RoundLinear(a: bv32, b: bv32)
    ensures Round(Xor(a, b)) == Xor(Round(a), Round(b))
  {
    hide Xor, Shifted, Feedback, Round;
    RoundSplits(a);
    RoundSplits(b);
    RoundSplits(Xor(a, b));
    ShiftLinear(a, b);
    FeedbackLinear(a, b);
    XorSwap(Shifted(a), Shifted(b), Feedback(a), Feedback(b));
  }

  lemma RoundKernel(c: bv32)
    requires Round(c) == 0
    ensures c == 0
  {
  }

  lemma {:induction false} RoundsLinear(a: bv32, b: bv32, n: nat)
    ensures Rounds(Xor(a, b), n) == Xor(Rounds(a, n), Rounds(b, n))
    decreases n
  {
    hide Xor, Round;
    if n > 0 {
      RoundLinear(a, b);
      RoundsLinear(Round(a), Round(b), n - 1);
    }
  }

  lemma {:induction false} RoundsKernel(c: bv32, n: nat)
    requires Rounds(c, n) == 0
    ensures c == 0
    decreases n
  {
    hide Round;
    if n > 0 {
      RoundsKernel(Round(c), n - 1);
      RoundKernel(c);
    }
  }

  lemma {:induction false} RoundsInjective(a: bv32, b: bv32, n: nat)
    requires Rounds(a, n) == Rounds(b, n)
    ensures a == b
  {
    hide Xor, Rounds;
    RoundsLinear(a, b, n);
    XorSelf(Rounds(a, n));
    RoundsKernel(Xor(a, b), n);
    XorZero(a, b);
  }

  lemma {:induction false} RoundsCompose(c: bv32, m: nat, n: nat)
    ensures Rounds(Rounds(c, m), n) == Rounds(c, m + n)
    decreases m
  {
    hide Round;
    if m > 0 { RoundsCompose(Round(c), m - 1, n); }
  }

  // --- The table -----------------------------------------------------------------------

  /** Eight rounds of a register whose low byte is clear are a plain shift. */
  lemma {:induction false} ShiftByte(c: bv32)
    requires c & 0xFF == 0
    ensures Rounds(c, 8) == c >> 8
  {
    assert Round(c) == c >> 1;
    assert Round(c >> 1) == c >> 2;
    assert Round(c >> 2) == c >> 3;
    assert Round(c >> 3) == c >> 4;
    assert Round(c >> 4) == c >> 5;
    assert Round(c >> 5) == c >> 6;
    assert Round(c >> 6) == c >> 7;
    assert Round(c >> 7) == c >> 8;
    hide Round;
    assert Rounds(c, 8) == Rounds(c >> 2, 6) == Rounds(c >> 4, 4) == Rounds(c >> 6, 2) == c >> 8;
  }

  function HighPart(c: bv32): bv32 { c & 0xFFFF_FF00 }

  function LowPart(c: bv32): Byte { (c & 0xFF) as bv8 }

  lemma Parts(c: bv32)
    ensures c == Xor(HighPart(c), Low(LowPart(c)))
    ensures HighPart(c) & 0xFF == 0 && HighPart(c) >> 8 == c >> 8
  {
  }

  ghost predicate TableOk(table: seq<bv32>) {
    |table| == 256 && forall i | 0 <= i < 256 :: table[i] == Rounds(Low(i as bv8), 8)
  }

  /** Fills the 256-entry table with eight rounds of every byte. */
  method BuildTable() returns (table: seq<bv32>)
    ensures TableOk(table)
  {
    table := [];
    for i := 0 to 256
      invariant |table| == i && forall k | 0 <= k < i :: table[k] == Rounds(Low(k as bv8), 8)
    {
      var crc := Low(i as bv8);
      for j := 0 to 8
        invariant Rounds(Low(i as bv8), 8) == Rounds(crc, 8 - j)
      {
        crc := Round(crc);
      }
      table := table + [crc];
    }
  }

  /** One table-driven step. */
  function TableStep(table: seq<bv32>, c: bv32, b: Byte): bv32
    requires |table| == 256
  {
    Xor(Top(c), table[LowPart(Xor(c, Low(b))) as nat])
  }

  function Top(c: bv32): bv32 { c >> 8 }

  lemma HighShift(c: bv32, b: Byte)
    ensures Top(Xor(c, Low(b))) == Top(c)
  {
  }

  lemma TableAt(table: seq<bv32>, b: Byte)
    requires TableOk(table)
    ensures table[b as nat] == Rounds(Low(b), 8)
  {
    hide Rounds, Low;
    ByteRoundTrip(b);
  }

  lemma RoundsOfHighPart(c: bv32)
    ensures Rounds(HighPart(c), 8) == Top(c)
  {
    hide Rounds;
    Parts(c);
    ShiftByte(HighPart(c));
  }

  lemma ByteRoundTrip(b: Byte)
    ensures (b as nat) < 256 && ((b as nat) as bv8) == b
  {
  }

  /** The fast step computes what the register computes. */
  lemma TableStepIsAbsorb(table: seq<bv32>, c: bv32, b: Byte)
    requires TableOk(table)
    ensures TableStep(table, c, b) == Absorb(c, b)
  {
    hide Xor, Rounds, HighPart, LowPart, Low, Top, TableOk;
    var y := Xor(c, Low(b));
    Parts(y);
    RoundsLinear(HighPart(y), Low(LowPart(y)), 8);
    RoundsOfHighPart(y);
    HighShift(c, b);
    TableAt(table, LowPart(y));
  }

  method Update(table: seq<bv32>, start: bv32, data: seq<Byte>) returns (crc: bv32)
    requires TableOk(table)
    ensures crc == Fold(start, data)
  {
    hide TableStep, Absorb;
    crc := start;
    for i := 0 to |data|
      invariant crc == Fold(start, data[..i])
    {
      TableStepIsAbsorb(table, crc, data[i]);
      crc := TableStep(table, crc, data[i]);
      assert data[..i + 1][..i] == data[..i];
    }
    assert data[..|data|] == data;
  }

  // --- Detection -------------------------------------------------------------------------

  lemma {:induction false} FoldAppend(c: bv32, s: seq<Byte>, t: seq<Byte>)
    ensures Fold(c, s + t) == Fold(Fold(c, s), t)
  {
    hide Absorb;
    if t == [] {
      assert s + t == s;
    } else {
      var n := |t| - 1;
      FoldAppend(c, s, t[..n]);
      assert (s + t)[..|s + t| - 1] == s + t[..n];
    }
  }

  lemma {:induction false} FoldInjective(c: bv32, d: bv32, s: seq<Byte>)
    requires Fold(c, s) == Fold(d, s)
    ensures c == d
  {
    hide Rounds, Xor, Low;
    if s != [] {
      var n := |s| - 1;
      var x, y := Fold(c, s[..n]), Fold(d, s[..n]);
      RoundsInjective(Xor(x, Low(s[n])), Xor(y, Low(s[n])), 8);
      XorCancel(x, y, Low(s[n]));
      FoldInjective(c, d, s[..n]);
    }
  }

  /** Four bytes as one little-endian register value. */
  function Word(b: seq<Byte>): bv32
    requires |b| == 4
  {
    Xor(Xor(Xor(Low(b[0]), At(b[1], 1)), At(b[2], 2)), At(b[3], 3))
  }

  function At(b: Byte, k: nat): bv32
    requires k < 4
  {
    if k == 0 then b as bv32 else if k == 1 then (b as bv32) << 8 else if k == 2 then (b as bv32) << 16
    else (b as bv32) << 24
  }

  lemma AtShifts(b: Byte)
    ensures At(b, 1) & 0xFF == 0 && At(b, 1) >> 8 == Low(b)
    ensures At(b, 2) & 0xFF == 0 && At(b, 2) >> 8 == At(b, 1)
    ensures At(b, 3) & 0xFF == 0 && At(b, 3) >> 8 == At(b, 2)
  {
  }

  /** A byte placed at position `k` reaches the low byte after `k` byte shifts. */
  lemma AtReachesLow(b: Byte)
    ensures Rounds(At(b, 1), 8) == Low(b)
    ensures Rounds(At(b, 2), 16) == Low(b)
    ensures Rounds(At(b, 3), 24) == Low(b)
  {
    hide Rounds, At, Low;
    AtShifts(b);
    ShiftByte(At(b, 1));
    ShiftByte(At(b, 2));
    ShiftByte(At(b, 3));
    RoundsCompose(At(b, 2), 8, 8);
    RoundsCompose(At(b, 3), 8, 16);
  }

  lemma AbsorbNext(z: bv32, n: nat, w: bv32, b: Byte)
    requires Rounds(w, n) == Low(b)
    ensures Absorb(Rounds(z, n), b) == Rounds(Xor(z, w), n + 8)
  {
    hide Rounds, Xor, Low;
    RoundsLinear(z, w, n);
    RoundsCompose(Xor(z, w), n, 8);
  }

  /** Absorbing four bytes is thirty-two rounds of the register combined with their word. */
  lemma {:induction false} AbsorbFour(c: bv32, b: seq<Byte>)
    requires |b| == 4
    ensures Fold(c, b) == Rounds(Xor(c, Word(b)), 32)
  {
    hide Rounds, Xor, Low, At;
    assert b[..3][..2] == b[..2] && b[..2][..1] == b[..1] && b[..1][..0] == [];
    assert Fold(c, b[..1]) == Absorb(Fold(c, b[..1][..0]), b[0]);
    assert Fold(c, b[..1]) == Absorb(c, b[0]);
    assert Fold(c, b[..2]) == Absorb(Absorb(c, b[0]), b[1]);
    assert Fold(c, b[..3]) == Absorb(Fold(c, b[..2]), b[2]);
    assert Fold(c, b) == Absorb(Fold(c, b[..3]), b[3]);
    AtReachesLow(b[1]);
    AtReachesLow(b[2]);
    AtReachesLow(b[3]);
    var z0 := Xor(c, Low(b[0]));
    AbsorbNext(z0, 8, At(b[1], 1), b[1]);
    var z1 := Xor(z0, At(b[1], 1));
    AbsorbNext(z1, 16, At(b[2], 2), b[2]);
    var z2 := Xor(z1, At(b[2], 2));
    AbsorbNext(z2, 24, At(b[3], 3), b[3]);
    XorAssoc(c, Low(b[0]), At(b[1], 1));
    XorAssoc(c, Xor(Low(b[0]), At(b[1], 1)), At(b[2], 2));
    XorAssoc(c, Xor(Xor(Low(b[0]), At(b[1], 1)), At(b[2], 2)), At(b[3], 3));
  }

  lemma WordInjective(a: seq<Byte>, b: seq<Byte>)
    requires |a| == 4 && |b| == 4 && Word(a) == Word(b)
    ensures a == b
  {
    hide Word;
    WordBytes(a);
    WordBytes(b);
  }

  /** The four little-endian bytes of a register value. */
  function BytesOf(c: bv32): seq<Byte> {
    [(c & 0xFF) as bv8, ((c >> 8) & 0xFF) as bv8, ((c >> 16) & 0xFF) as bv8, ((c >> 24) & 0xFF) as bv8]
  }

  lemma WordByte0(b: seq<Byte>)
    requires |b| == 4
    ensures BytesOf(Word(b))[0] == b[0]
  {
  }

  lemma WordByte1(b: seq<Byte>)
    requires |b| == 4
    ensures BytesOf(Word(b))[1] == b[1]
  {
  }

  lemma WordByte2(b: seq<Byte>)
    requires |b| == 4
    ensures BytesOf(Word(b))[2] == b[2]
  {
  }

  lemma WordByte3(b: seq<Byte>)
    requires |b| == 4
    ensures BytesOf(Word(b))[3] == b[3]
  {
  }

  lemma WordBytes(b: seq<Byte>)
    requires |b| == 4
    ensures BytesOf(Word(b)) == b
  {
    hide Word;
    WordByte0(b);
    WordByte1(b);
    WordByte2(b);
    WordByte3(b);
  }

  lemma BytesWord(c: bv32)
    ensures |BytesOf(c)| == 4 && Word(BytesOf(c)) == c
  {
  }

  /** Sequences that differ only inside one window of four adjacent bytes. */
  ghost predicate DifferInWindow(s: seq<Byte>, t: seq<Byte>, i: nat) {
    && |s| == |t| && i + 4 <= |s| && s != t
    && s[..i] == t[..i] && s[i + 4..] == t[i + 4..]
  }

  /** Any change confined to four adjacent bytes changes the checksum. */
  lemma {:induction false} BurstChangesChecksum(c: bv32, s: seq<Byte>, t: seq<Byte>, i: nat)
    requires DifferInWindow(s, t, i)
    ensures Fold(c, s) != Fold(c, t)
  {
    hide Xor, Rounds, Word, Absorb, Fold;
    var p, q, x, y := s[..i], s[i + 4..], s[i..i + 4], t[i..i + 4];
    assert s == p + x + q && t == p + y + q;
    FoldAppend(c, p + x, q);
    FoldAppend(c, p + y, q);
    FoldAppend(c, p, x);
    FoldAppend(c, p, y);
    var r := Fold(c, p);
    AbsorbFour(r, x);
    AbsorbFour(r, y);
    if Fold(c, s) == Fold(c, t) {
      FoldInjective(Fold(r, x), Fold(r, y), q);
      RoundsInjective(Xor(r, Word(x)), Xor(r, Word(y)), 32);
      XorComm(r, Word(x));
      XorComm(r, Word(y));
      XorCancel(Word(x), Word(y), r);
      WordInjective(x, y);
    }
  }
}
