/**
 Frame-level CRC-16/CCITT-FALSE framing of USB bulk transfers.
 */
module UsbCrc {
  import opened Wrappers

  type Byte = bv8

  const POLY: bv16 := 0x1021
  const INIT: bv16 := 0xFFFF
  const MAX_PACKET_SIZE: nat := 64
  const HEADER_SIZE: nat := 5

  // --- The register ---------------------------------------------------------------

  function Xor(a: bv16, b: bv16): bv16 { a ^ b }

  function High(b: Byte): bv16 { (b as bv16) << 8 }

  function Low(b: Byte): bv16 { b as bv16 }

  function Round(c: bv16): bv16 {
    if c & 0x8000 != 0 then (c << 1) ^ POLY else c << 1
  }

  function Rounds(c: bv16, n: nat): bv16
    decreases n
  {
    if n == 0 then c else Rounds(Round(c), n - 1)
  }

  function Absorb(c: bv16, b: Byte): bv16 {
    Rounds(Xor(c, High(b)), 8)
  }

  /** The checksum of a byte sequence, from any register value. */
  function Fold(c: bv16, data: seq<Byte>): bv16 {
    if data == [] then c else Absorb(Fold(c, data[..|data| - 1]), data[|data| - 1])
  }

  method Crc16(data: seq<Byte>) returns (crc: bv16)
    ensures crc == Fold(INIT, data)
  {
    crc := INIT;
    for i := 0 to |data|
      invariant crc == Fold(INIT, data[..i])
    {
      ghost var before := crc;
      crc := crc ^ ((data[i] as bv16) << 8);
      ghost var start := crc;
      for k := 0 to 8
        invariant Rounds(start, 8) == Rounds(crc, 8 - k)
      {
        crc := if crc & 0x8000 != 0 then (crc << 1) ^ 0x1021 else crc << 1;
      }
      assert data[..i + 1][..i] == data[..i];
    }
    assert data[..|data|] == data;
  }

  const CHECK: seq<Byte> := [0x31, 0x32, 0x33, 0x34, 0x35, 0x36, 0x37, 0x38, 0x39]

  /** The check value of CRC-16/CCITT-FALSE: the digits 1 to 9. */
  lemma {:induction false} CheckValue()
    ensures Fold(INIT, CHECK) == 0x29B1
  {
    hide Absorb;
    CheckStep(0, 0xFFFF, 0xC782) by { AbsorbIs(0xFFFF, 0x31); }
    CheckStep(1, 0xC782, 0x3DBA) by { AbsorbIs(0xC782, 0x32); }
    CheckStep(2, 0x3DBA, 0x5BCE) by { AbsorbIs(0x3DBA, 0x33); }
    CheckStep(3, 0x5BCE, 0x5349) by { AbsorbIs(0x5BCE, 0x34); }
    CheckStep(4, 0x5349, 0x4560) by { AbsorbIs(0x5349, 0x35); }
    CheckStep(5, 0x4560, 0x2EF4) by { AbsorbIs(0x4560, 0x36); }
    CheckStep(6, 0x2EF4, 0x7718) by { AbsorbIs(0x2EF4, 0x37); }
    CheckStep(7, 0x7718, 0xA12B) by { AbsorbIs(0x7718, 0x38); }
    CheckStep(8, 0xA12B, 0x29B1) by { AbsorbIs(0xA12B, 0x39); }
    assert CHECK[..9] == CHECK;
  }

  lemma {:induction false} CheckStep(n: nat, before: bv16, after: bv16)
    requires n < |CHECK| && Fold(INIT, CHECK[..n]) == before && Absorb(before, CHECK[n]) == after
    ensures Fold(INIT, CHECK[..n + 1]) == after
  {
    hide Absorb;
    assert CHECK[..n + 1][..n] == CHECK[..n];
  }

  lemma AbsorbIs(c: bv16, b: Byte)
    ensures Absorb(c, b) == Round(Round(Round(Round(Round(Round(Round(Round(c ^ ((b as bv16) << 8)))))))))
  {
    hide Round;
    var x := Xor(c, High(b));
    assert Rounds(x, 8) == Rounds(Round(Round(x)), 6);
    assert Rounds(Round(Round(x)), 6) == Rounds(Round(Round(Round(Round(x)))), 4);
  }

  // --- Group laws of exclusive or --------------------------------------------------

  lemma XorAssoc(a: bv16, b: bv16, c: bv16)
    ensures Xor(Xor(a, b), c) == Xor(a, Xor(b, c))
  {
  }

  lemma XorComm(a: bv16, b: bv16)
    ensures Xor(a, b) == Xor(b, a)
  {
  }

  lemma XorSelf(a: bv16)
    ensures Xor(a, a) == 0 && Xor(a, 0) == a && Xor(0, a) == a
  {
  }

  lemma XorZero(a: bv16, b: bv16)
    requires Xor(a, b) == 0
    ensures a == b
  {
  }

  /** (a + b) + (c + d) == (a + c) + (b + d) */
  lemma XorSwap(a: bv16, b: bv16, c: bv16, d: bv16)
    ensures Xor(Xor(a, b), Xor(c, d)) == Xor(Xor(a, c), Xor(b, d))
  {
    hide Xor;
    XorAssoc(a, b, Xor(c, d));
    XorAssoc(b, c, d);
    XorComm(b, c);
    XorAssoc(c, b, d);
    XorAssoc(a, c, Xor(b, d));
  }

  // --- Rounds are linear and lose nothing -------------------------------------------

  function Shifted(c: bv16): bv16 { c << 1 }

  function Feedback(c: bv16): bv16 { if c & 0x8000 != 0 then POLY else 0 }

  lemma RoundSplits(c: bv16)
    ensures Round(c) == Xor(Shifted(c), Feedback(c))
  {
    hide Xor;
    XorIs(Shifted(c), POLY);
    XorSelf(Shifted(c));
  }

  lemma XorIs(a: bv16, b: bv16)
    ensures Xor(a, b) == a ^ b
  {
  }

  lemma ShiftLinear(a: bv16, b: bv16)
    ensures Shifted(Xor(a, b)) == Xor(Shifted(a), Shifted(b))
  {
  }

  lemma TopBit(c: bv16)
    ensures c & 0x8000 == 0 || c & 0x8000 == 0x8000
  {
  }

  lemma TopBitXor(a: bv16, b: bv16)
    ensures (a ^ b) & 0x8000 == (a & 0x8000) ^ (b & 0x8000)
  {
  }

  lemma FeedbackLinear(a: bv16, b: bv16)
    ensures Feedback(Xor(a, b)) == Xor(Feedback(a), Feedback(b))
  {
    TopBit(a);
    TopBit(b);
    TopBitXor(a, b);
    XorSelf(POLY);
  }

  lemma RoundLinear(a: bv16, b: bv16)
    ensures Round(Xor(a, b)) == Xor(Round(a), Round(b))
  {
    hide Xor, Shifted, Feedback, Round;
    RoundSplits(a);
    RoundSplits(b);
    RoundSplits(Xor(a, b));
    ShiftLinear(a, b);
    FeedbackLinear(a, b);
    XorSwap(Shifted(a), Shifted(b), Feedback(a), Feedback(b));
  }

  lemma RoundKernel(c: bv16)
    requires Round(c) == 0
    ensures c == 0
  {
  }

  lemma {:induction false} RoundsLinear(a: bv16, b: bv16, n: nat)
    ensures Rounds(Xor(a, b), n) == Xor(Rounds(a, n), Rounds(b, n))
    decreases n
  {
    hide Xor, Round;
    if n > 0 {
      RoundLinear(a, b);
      RoundsLinear(Round(a), Round(b), n - 1);
    }
  }

  lemma {:induction false} RoundsKernel(c: bv16, n: nat)
    requires Rounds(c, n) == 0
    ensures c == 0
    decreases n
  {
    hide Round;
    if n > 0 {
      RoundsKernel(Round(c), n - 1);
      RoundKernel(c);
    }
  }

  lemma {:induction false} RoundsInjective(a: bv16, b: bv16, n: nat)
    requires Rounds(a, n) == Rounds(b, n)
    ensures a == b
  {
    hide Xor, Rounds;
    RoundsLinear(a, b, n);
    XorSelf(Rounds(a, n));
    RoundsKernel(Xor(a, b), n);
    XorZero(a, b);
  }

  lemma {:induction false} RoundsCompose(c: bv16, m: nat, n: nat)
    ensures Rounds(Rounds(c, m), n) == Rounds(c, m + n)
    decreases m
  {
    hide Round;
    if m > 0 { RoundsCompose(Round(c), m - 1, n); }
  }

  // --- Two bytes at a time ------------------------------------------------------------

  /** Eight rounds move a low byte to the top unchanged. */
  lemma LowBecomesHigh(b: Byte)
    ensures Rounds(Low(b), 8) == High(b)
  {
    var x := b as bv16;
    assert x & 0xFF00 == 0;
    assert Round(x) == x << 1;
    assert Round(x << 1) == x << 2;
    assert Round(x << 2) == x << 3;
    assert Round(x << 3) == x << 4;
    assert Round(x << 4) == x << 5;
    assert Round(x << 5) == x << 6;
    assert Round(x << 6) == x << 7;
    assert Round(x << 7) == x << 8;
    hide Round;
    assert Rounds(x, 8) == Rounds(x << 2, 6) == Rounds(x << 4, 4) == Rounds(x << 6, 2) == x << 8;
  }

  function Word(hi: Byte, lo: Byte): bv16 { Xor(High(hi), Low(lo)) }

  /** Absorbing two bytes is sixteen rounds of the register combined with their word. */
  lemma AbsorbTwo(c: bv16, hi: Byte, lo: Byte)
    ensures Absorb(Absorb(c, hi), lo) == Rounds(Xor(c, Word(hi, lo)), 16)
  {
    hide Xor, Rounds, High, Low;
    LowBecomesHigh(lo);
    RoundsLinear(Xor(c, High(hi)), Low(lo), 8);
    XorAssoc(c, High(hi), Low(lo));
    RoundsCompose(Xor(c, Word(hi, lo)), 8, 8);
  }

  lemma WordInjective(hi: Byte, lo: Byte, hi': Byte, lo': Byte)
    requires Word(hi, lo) == Word(hi', lo')
    ensures hi == hi' && lo == lo'
  {
  }

  lemma {:induction false} FoldAppend(c: bv16, s: seq<Byte>, t: seq<Byte>)
    ensures Fold(c, s + t) == Fold(Fold(c, s), t)
  {
    hide Absorb;
    if t == [] {
      assert s + t == s;
    } else {
      var n := |t| - 1;
      FoldAppend(c, s, t[..n]);
      assert (s + t)[..|s + t| - 1] == s + t[..n];
    }
  }

  lemma {:induction false} FoldTwo(c: bv16, hi: Byte, lo: Byte)
    ensures Fold(c, [hi, lo]) == Absorb(Absorb(c, hi), lo)
  {
    hide Absorb;
    assert [hi, lo][..1] == [hi] && [hi][..0] == [];
    assert Fold(c, [hi]) == Absorb(Fold(c, [hi][..0]), hi);
  }

  /** A difference in the register survives any common continuation. */
  lemma {:induction false} FoldInjective(c: bv16, d: bv16, s: seq<Byte>)
    requires Fold(c, s) == Fold(d, s)
    ensures c == d
  {
    hide Rounds, Xor;
    if s != [] {
      var n := |s| - 1;
      var x, y := Fold(c, s[..n]), Fold(d, s[..n]);
      RoundsInjective(Xor(x, High(s[n])), Xor(y, High(s[n])), 8);
      XorCancel(x, y, High(s[n]));
      FoldInjective(c, d, s[..n]);
    }
  }

  lemma XorCancel(a: bv16, b: bv16, x: bv16)
    requires Xor(a, x) == Xor(b, x)
    ensures a == b
  {
  }

  // --- Big-endian checksum bytes --------------------------------------------------------

  function HighByte(c: bv16): Byte { ((c >> 8) & 0xFF) as bv8 }

  function LowByte(c: bv16): Byte { (c & 0xFF) as bv8 }

  lemma BytesOfWord(c: bv16)
    ensures Word(HighByte(c), LowByte(c)) == c
  {
  }

  /** Data followed by two bytes checks to zero exactly when the bytes are its checksum. */
  lemma {:induction false} ResidueZero(data: seq<Byte>, hi: Byte, lo: Byte)
    ensures Fold(INIT, data + [hi, lo]) == 0 <==> Word(hi, lo) == Fold(INIT, data)
  {
    hide Xor, Rounds, Word, Absorb;
    var c := Fold(INIT, data);
    FoldAppend(INIT, data, [hi, lo]);
    FoldTwo(c, hi, lo);
    AbsorbTwo(c, hi, lo);
    if Fold(INIT, data + [hi, lo]) == 0 {
      RoundsKernel(Xor(c, Word(hi, lo)), 16);
      XorZero(c, Word(hi, lo));
    }
    if Word(hi, lo) == c {
      XorSelf(c);
      RoundsOfZero(16);
    }
  }

  lemma {:induction false} RoundsOfZero(n: nat)
    ensures Rounds(0, n) == 0
  {
    if n > 0 { RoundsOfZero(n - 1); }
  }

  /** Sequences that differ only inside one window of two adjacent bytes. */
  ghost predicate DifferInWindow(s: seq<Byte>, t: seq<Byte>, i: nat) {
    && |s| == |t| && i + 2 <= |s| && s != t
    && s[..i] == t[..i] && s[i + 2..] == t[i + 2..]
  }

  /** Any change confined to two adjacent bytes changes the checksum. */
  lemma {:induction false} BurstChangesChecksum(c: bv16, s: seq<Byte>, t: seq<Byte>, i: nat)
    requires DifferInWindow(s, t, i)
    ensures Fold(c, s) != Fold(c, t)
  {
    hide Xor, Rounds, Word, Absorb;
    var p, q := s[..i], s[i + 2..];
    assert s == p + [s[i], s[i + 1]] + q;
    assert t == p + [t[i], t[i + 1]] + q;
    FoldAppend(c, p + [s[i], s[i + 1]], q);
    FoldAppend(c, p + [t[i], t[i + 1]], q);
    FoldAppend(c, p, [s[i], s[i + 1]]);
    FoldAppend(c, p, [t[i], t[i + 1]]);
    var r := Fold(c, p);
    FoldTwo(r, s[i], s[i + 1]);
    FoldTwo(r, t[i], t[i + 1]);
    AbsorbTwo(r, s[i], s[i + 1]);
    AbsorbTwo(r, t[i], t[i + 1]);
    if Fold(c, s) == Fold(c, t) {
      FoldInjective(Fold(r, [s[i], s[i + 1]]), Fold(r, [t[i], t[i + 1]]), q);
      RoundsInjective(Xor(r, Word(s[i], s[i + 1])), Xor(r, Word(t[i], t[i + 1])), 16);
      XorComm(r, Word(s[i], s[i + 1]));
      XorComm(r, Word(t[i], t[i + 1]));
      XorCancel(Word(s[i], s[i + 1]), Word(t[i], t[i + 1]), r);
      WordInjective(s[i], s[i + 1], t[i], t[i + 1]);
    }
  }

  // --- Framing ----------------------------------------------------------------------------

  datatype CrcError = TooShort | Mismatch

  function CrcBytes(frame: seq<Byte>): seq<Byte> {
    [HighByte(Fold(INIT, frame)), LowByte(Fold(INIT, frame))]
  }

  predicate NeedsPad(length: nat) {
    (length + 2) % MAX_PACKET_SIZE == 0
  }

  function Wrapped(frame: seq<Byte>): seq<Byte> {
    frame + CrcBytes(frame) + if NeedsPad(|frame|) then [0] else []
  }

  method WrapFrame(frame: seq<Byte>) returns (out: seq<Byte>)
    ensures out == Wrapped(frame)
    ensures |out| % 64 != 0
  {
    var crc := Crc16(frame);
    out := frame;
    out := out + [HighByte(crc), LowByte(crc)];
    if (|frame| + 2) % MAX_PACKET_SIZE == 0 {
      out := out + [0];
    }
  }

  /** The little-endian length field of the header. */
  function DeclaredLength(buf: seq<Byte>): nat
    requires |buf| >= HEADER_SIZE
  {
    buf[3] as nat + 256 * (buf[4] as nat)
  }

  function FrameSize(buf: seq<Byte>): nat
    requires |buf| >= HEADER_SIZE
  {
    HEADER_SIZE + DeclaredLength(buf)
  }

  function UnwrapFrame(buf: seq<Byte>): Result<seq<Byte>, CrcError> {
    if |buf| < HEADER_SIZE + 2 then Failure(TooShort)
    else
      var size := FrameSize(buf);
      if size + 2 > |buf| then Failure(TooShort)
      else if Word(buf[size], buf[size + 1]) != Fold(INIT, buf[..size]) then Failure(Mismatch)
      else Success(buf[..size])
  }

  /** The header's length field describes the frame it heads. */
  predicate WellFormed(frame: seq<Byte>) {
    |frame| >= HEADER_SIZE && FrameSize(frame) == |frame|
  }

  lemma UnwrapPrefix(frame: seq<Byte>, extra: seq<Byte>)
    requires WellFormed(frame)
    ensures UnwrapFrame(frame + CrcBytes(frame) + extra) == Success(frame)
  {
    hide Word, Fold, HighByte, LowByte;
    var buf := frame + CrcBytes(frame) + extra;
    assert buf[3] == frame[3] && buf[4] == frame[4];
    assert buf[..|frame|] == frame;
    assert buf[|frame|] == CrcBytes(frame)[0] && buf[|frame| + 1] == CrcBytes(frame)[1];
    BytesOfWord(Fold(INIT, frame));
  }

  /** Unwrapping undoes wrapping exactly for frames whose header tells their length. */
  lemma RoundTrip(frame: seq<Byte>)
    ensures UnwrapFrame(Wrapped(frame)) == Success(frame) <==> WellFormed(frame)
  {
    hide Word, Fold, HighByte, LowByte;
    if WellFormed(frame) {
      UnwrapPrefix(frame, if NeedsPad(|frame|) then [0] else []);
    } else if |frame| >= HEADER_SIZE {
      assert Wrapped(frame)[3] == frame[3] && Wrapped(frame)[4] == frame[4];
    }
  }

  /** A frame that was wrapped a second time on its way out still unwraps to itself. */
  lemma DoubleWrap(frame: seq<Byte>)
    requires WellFormed(frame)
    ensures UnwrapFrame(Wrapped(Wrapped(frame))) == Success(frame)
  {
    hide Word, Fold, HighByte, LowByte;
    var w := Wrapped(frame);
    var pad := if NeedsPad(|frame|) then [0] else [];
    var extra := pad + CrcBytes(w) + if NeedsPad(|w|) then [0] else [];
    assert Wrapped(w) == frame + CrcBytes(frame) + extra;
    UnwrapPrefix(frame, extra);
  }

  /** Given enough bytes, a transfer is accepted exactly when frame and checksum together check to zero. */
  lemma AcceptedIffResidueZero(buf: seq<Byte>)
    requires |buf| >= HEADER_SIZE + 2 && FrameSize(buf) + 2 <= |buf|
    ensures UnwrapFrame(buf).Success? <==> Fold(INIT, buf[..FrameSize(buf) + 2]) == 0
    ensures UnwrapFrame(buf).Success? || UnwrapFrame(buf) == Failure(Mismatch)
  {
    hide Word, Fold;
    var size := FrameSize(buf);
    assert buf[..size + 2] == buf[..size] + [buf[size], buf[size + 1]];
    ResidueZero(buf[..size], buf[size], buf[size + 1]);
  }

  /** Fewer bytes than the header declares, or than a header takes, are too short; nothing else is. */
  lemma TooShortIff(buf: seq<Byte>)
    ensures UnwrapFrame(buf) == Failure(TooShort) <==>
            |buf| < 7 || |buf| < 7 + (buf[3] as nat) + 256 * (buf[4] as nat)
  {
    hide Fold;
  }

  /** Corruption confined to two adjacent bytes of frame or checksum, length field aside, is always caught. */
  lemma BurstRejected(sent: seq<Byte>, got: seq<Byte>, i: nat)
    requires UnwrapFrame(sent).Success? && |got| == |sent|
    requires got[3] == sent[3] && got[4] == sent[4]
    requires DifferInWindow(sent[..FrameSize(sent) + 2], got[..FrameSize(sent) + 2], i)
    ensures UnwrapFrame(got) == Failure(Mismatch)
  {
    hide Word, Fold;
    AcceptedIffResidueZero(sent);
    AcceptedIffResidueZero(got);
    BurstChangesChecksum(INIT, sent[..FrameSize(sent) + 2], got[..FrameSize(sent) + 2], i);
  }

  /**
   A corrupted length field can go unnoticed, whatever the frame type and sequence number, and also together
   with the byte before it: the payload may hold the checksum of a shorter frame.
   */
  lemma LengthCorruptionCanPass(kind: Byte, seq0: Byte, seq1: Byte, other: Byte)
    ensures var short := [kind, seq0, other, 0, 0];
            var frame := [kind, seq0, seq1, 2, 0] + CrcBytes(short);
            && WellFormed(frame)
            && UnwrapFrame(Wrapped(frame)) == Success(frame)
            && UnwrapFrame(Wrapped(frame)[2 := other][3 := 0]) == Success(short)
  {
    hide Word, Fold, HighByte, LowByte;
    var short := [kind, seq0, other, 0, 0];
    var frame := [kind, seq0, seq1, 2, 0] + CrcBytes(short);
    assert frame[3] == 2 && frame[4] == 0;
    RoundTrip(frame);
    var extra := CrcBytes(frame) + if NeedsPad(|frame|) then [0] else [];
    assert Wrapped(frame)[2 := other][3 := 0] == short + CrcBytes(short) + extra;
    assert short[3] == 0 && short[4] == 0;
    UnwrapPrefix(short, extra);
  }

  /**
   Which transfers with a damaged beginning, length field included, pass: exactly those in which the bytes
   behind the declared frame are its checksum. Where the damage ends before the declared frame does, these are
   the sent bytes. The length is at most the one sent, or one more where the transfer was padded.
   */
  lemma {:induction false} LengthPassesIff(frame: seq<Byte>, head: seq<Byte>)
    requires WellFormed(frame) && HEADER_SIZE <= |head| <= |Wrapped(frame)|
    ensures var sent, size := Wrapped(frame), FrameSize(head);
            var got := head + sent[|head|..];
            && (UnwrapFrame(got).Success? <==> size + 2 <= |sent| && got[size..size + 2] == CrcBytes(got[..size]))
            && (|head| <= size <= |sent| - 2 ==>
                  (UnwrapFrame(got).Success? <==> sent[size..size + 2] == CrcBytes(head + sent[|head|..size])))
            && (UnwrapFrame(got).Success? ==> size <= |frame| || (size == |frame| + 1 && NeedsPad(|frame|)))
  {
    hide Word, Fold, HighByte, LowByte, FrameSize;
    var sent, size := Wrapped(frame), FrameSize(head);
    var got := head + sent[|head|..];
    SameLength(got, head);
    if size + 2 <= |sent| {
      assert got[size..size + 2] == [got[size], got[size + 1]];
      WordIsBytes(got[size], got[size + 1], Fold(INIT, got[..size]));
      if |head| <= size {
        assert got[..size] == head + sent[|head|..size];
        assert got[size..size + 2] == sent[size..size + 2];
      }
    }
  }

  lemma SameLength(buf: seq<Byte>, head: seq<Byte>)
    requires HEADER_SIZE <= |head| <= |buf| && buf[..|head|] == head
    ensures FrameSize(buf) == FrameSize(head)
  {
    assert buf[3] == head[3] && buf[4] == head[4];
  }

  lemma WordIsBytes(hi: Byte, lo: Byte, c: bv16)
    ensures Word(hi, lo) == c <==> [hi, lo] == [HighByte(c), LowByte(c)]
  {
    BytesOfWord(c);
    if Word(hi, lo) == c { WordInjective(hi, lo, HighByte(c), LowByte(c)); }
  }
}
