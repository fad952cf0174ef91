/**
 Bitwise operators of a fixed-width unsigned word, defined on natural numbers so
 that masks and address arithmetic can be mixed.
 */
module BitOps {

  function Pow2(k: nat): (p: nat)
    ensures p > 0
  {
    if k == 0 then 1 else 2 * Pow2(k - 1)
  }

  /** Bitwise conjunction. */
  function And(x: nat, y: nat): (r: nat)
    ensures r <= x && r <= y
  {
    if x == 0 || y == 0 then 0
    else (if x % 2 == 1 && y % 2 == 1 then 1 else 0) + 2 * And(x / 2, y / 2)
  }

  /** Bitwise complement in a word of `width` bits. */
  function Not(width: nat, x: nat): (r: nat)
    requires x < Pow2(width)
    ensures r < Pow2(width)
  {
    Pow2(width) - 1 - x
  }

  predicate IsPow2(a: nat) {
    a == 1 || (a > 1 && a % 2 == 0 && IsPow2(a / 2))
  }

  /** Masking with a complement removes exactly the masked bits. */
  lemma {:induction false} AndNot(width: nat, x: nat, m: nat)
    requires x < Pow2(width) && m < Pow2(width)
    ensures And(x, Not(width, m)) == x - And(x, m)
  {
    if width > 0 {
      AndNot(width - 1, x / 2, m / 2);
      var n := Not(width, m);
      assert n / 2 == Not(width - 1, m / 2);
      assert n % 2 == 1 - m % 2;
      assert And(x, n) == (if x % 2 == 1 && n % 2 == 1 then 1 else 0) + 2 * And(x / 2, n / 2);
      assert And(x, m) == (if x % 2 == 1 && m % 2 == 1 then 1 else 0) + 2 * And(x / 2, m / 2);
    }
  }

  /** The low bits below a power of two are the remainder. */
  lemma {:induction false} AndLowBits(x: nat, a: nat)
    requires IsPow2(a)
    ensures And(x, a - 1) == x % a
  {
    if a == 1 {
    } else if x == 0 {
      assert 0 % a == 0;
    } else {
      var h := a / 2;
      AndLowBits(x / 2, h);
      HalfMod(x, h);
      AndOddMask(x, h);
    }
  }

  lemma AndOddMask(x: nat, h: nat)
    requires h > 0
    ensures And(x, 2 * h - 1) == x % 2 + 2 * And(x / 2, h - 1)
  {
    assert (2 * h - 1) / 2 == h - 1 && (2 * h - 1) % 2 == 1;
  }

  lemma HalfMod(x: nat, h: nat)
    requires h > 0
    ensures x % (2 * h) == x % 2 + 2 * ((x / 2) % h)
  {
    var q, r := (x / 2) / h, (x / 2) % h;
    assert x == 2 * h * q + (x % 2 + 2 * r) by {
      assert x / 2 == h * q + r;
      assert 2 * (h * q) == 2 * h * q;
    }
    DivModUnique(x, 2 * h, q, x % 2 + 2 * r);
  }

  lemma DivModUnique(x: int, d: int, q: int, r: int)
    requires 0 <= r < d && x == d * q + r
    ensures x / d == q && x % d == r
  {
    SmallMultiple(d, q - x / d, x % d - r);
  }

  lemma SmallMultiple(d: int, k: int, y: int)
    requires d * k == y && -d < y < d
    ensures k == 0 && y == 0
  {
  }

  /** Clearing the lowest set bit leaves a proper divisor gap unless `a` is a power of two. */
  lemma {:induction false} LowestSetBit(a: nat)
    requires a > 0
    ensures 0 < a - And(a, a - 1) <= a
    ensures a - And(a, a - 1) == a <==> IsPow2(a)
  {
    if a % 2 == 0 {
      LowestSetBit(a / 2);
      assert (a - 1) / 2 == a / 2 - 1;
      assert And(a, a - 1) == 2 * And(a / 2, a / 2 - 1);
    } else if a > 1 {
      assert And(a, a - 1) == 2 * And(a / 2, (a - 1) / 2);
      AndSelf(a / 2);
    }
  }

  lemma {:induction false} AndSelf(a: nat)
    ensures And(a, a) == a
  {
    if a > 0 { AndSelf(a / 2); }
  }

  lemma {:induction false} Pow2Monotone(j: nat, k: nat)
    requires j <= k
    ensures Pow2(j) <= Pow2(k)
  {
    if j < k { Pow2Monotone(j, k - 1); }
  }

  // --- 64-bit words -----------------------------------------------------------

  const U64_LIMIT: nat := 0x1_0000_0000_0000_0000

  function Not64(x: nat): (r: nat)
    requires x < U64_LIMIT
    ensures r < U64_LIMIT
  {
    U64_LIMIT - 1 - x
  }

  lemma {:induction false} Pow2Add(j: nat, k: nat)
    ensures Pow2(j + k) == Pow2(j) * Pow2(k)
  {
    if j > 0 {
      Pow2Add(j - 1, k);
      assert 2 * (Pow2(j - 1) * Pow2(k)) == (2 * Pow2(j - 1)) * Pow2(k);
    }
  }

  lemma WordSize()
    ensures Pow2(64) == U64_LIMIT
  {
    assert Pow2(8) == 0x100;
    Pow2Add(8, 8);
    Pow2Add(16, 16);
    Pow2Add(32, 32);
  }

  lemma {:induction false} AndNot64(x: nat, m: nat)
    requires x < U64_LIMIT && m < U64_LIMIT
    ensures And(x, Not64(m)) == x - And(x, m)
  {
    WordSize();
    var w := 64;
    AndNot(w, x, m);
  }

  lemma RoundDown(y: nat, a: nat)
    requires a > 0
    ensures y - y % a == a * (y / a)
    ensures (y - y % a) % a == 0
  {
    DivModUnique(y - y % a, a, y / a, 0);
  }

  /** `x` is a multiple of `a`, by repeated subtraction. */
  predicate Aligned(x: nat, a: nat) {
    a > 0 && (x == 0 || (x >= a && Aligned(x - a, a)))
  }

  lemma {:induction false} AlignedIffRemainder(x: nat, a: nat)
    requires a > 0
    ensures Aligned(x, a) <==> x % a == 0
  {
    if x >= a {
      AlignedIffRemainder(x - a, a);
      DivModUnique(x, a, (x - a) / a + 1, (x - a) % a);
    } else {
      DivModUnique(x, a, 0, x);
    }
  }

  /** Seen from a multiple of `a`, the other multiples are a multiple of `a` away. */
  lemma {:induction false} AlignedApart(x: nat, y: nat, a: nat)
    requires Aligned(x, a)
    ensures Aligned(y, a) <==> (y - x) % a == 0
  {
    AlignedIffRemainder(x, a);
    AlignedIffRemainder(y, a);
    assert x == a * (x / a);
    assert a * (y / a) - a * (x / a) == a * (y / a - x / a);
    DivModUnique(y - x, a, y / a - x / a, y % a);
  }

  // --- Alignment by mask ----------------------------------------------------

  predicate CanAlign(x: nat, a: nat) {
    a > 0 && x + a - 1 < U64_LIMIT
  }

  /** The mask form `(x + a - 1) & !(a - 1)` on 64-bit words. */
  function AlignUp(x: nat, a: nat): (r: nat)
    requires CanAlign(x, a)
    ensures x <= r < x + a
  {
    AlignUpValue(x, a);
    And(x + a - 1, Not64(a - 1))
  }

  lemma {:induction false} AlignUpValue(x: nat, a: nat)
    requires CanAlign(x, a)
    ensures And(x + a - 1, Not64(a - 1)) == x + a - 1 - And(x + a - 1, a - 1)
  {
    AndNot64(x + a - 1, a - 1);
  }

  lemma {:induction false} AlignUpIsRemainder(x: nat, a: nat)
    requires CanAlign(x, a) && IsPow2(a)
    ensures AlignUp(x, a) == x + a - 1 - (x + a - 1) % a
  {
    AlignUpValue(x, a);
    AndLowBits(x + a - 1, a);
  }

  /** For powers of two the mask form is the least multiple that is not below `x`. */
  lemma {:induction false} AlignUpRoundsUp(x: nat, a: nat)
    requires CanAlign(x, a) && IsPow2(a)
    ensures Aligned(AlignUp(x, a), a)
  {
    var y := x + a - 1;
    AlignUpIsRemainder(x, a);
    RoundDown(y, a);
    AlignedIffRemainder(y - y % a, a);
  }

  /** The last multiple of `a` below `m`. */
  function StepBelow(m: nat, a: nat): nat
    requires m > 0 && a > 0
  {
    m - 1 - (m - 1) % a
  }

  lemma {:induction false} StepBelowIs(m: nat, a: nat)
    requires m > 0 && a > 0
    ensures Aligned(StepBelow(m, a), a) && StepBelow(m, a) < m <= StepBelow(m, a) + a
  {
    RoundDown(m - 1, a);
    AlignedIffRemainder(StepBelow(m, a), a);
  }

  /** Rounding up reaches `m` exactly from past the last multiple below it. */
  lemma {:induction false} AlignUpReachesIff(x: nat, a: nat, m: nat)
    requires CanAlign(x, a) && IsPow2(a) && m > 0
    ensures m <= AlignUp(x, a) <==> StepBelow(m, a) < x
  {
    hide Aligned, AlignUp, IsPow2, StepBelow;
    var r, step := AlignUp(x, a), StepBelow(m, a);
    AlignUpRoundsUp(x, a);
    StepBelowIs(m, a);
    if step < r { MultiplesApart(step, r, a); }
  }

  lemma {:induction false} MultiplesApart(x: nat, y: nat, a: nat)
    requires Aligned(x, a) && Aligned(y, a) && x < y
    ensures x + a <= y
  {
    if x >= a { MultiplesApart(x - a, y - a, a); }
  }

  lemma {:induction false} AlignUpMisses(a: nat, x: nat)
    requires 1 < a < U64_LIMIT && !IsPow2(a) && x == 1
    ensures !Aligned(AlignUp(x, a), a)
  {
    LowestSetBit(a);
    AlignUpValue(x, a);
    var r := AlignUp(x, a);
    assert 0 < r < a;
  }

  ghost predicate AlwaysAligned(a: nat) {
    forall x: nat | CanAlign(x, a) :: Aligned(AlignUp(x, a), a)
  }

  /** Powers of two are exactly the alignments the mask form honours at every address. */
  lemma {:induction false} AlignUpExact(a: nat)
    requires 0 < a < U64_LIMIT
    ensures AlwaysAligned(a) <==> IsPow2(a)
  {
    if IsPow2(a) {
      forall x: nat | CanAlign(x, a) ensures Aligned(AlignUp(x, a), a) {
        AlignUpRoundsUp(x, a);
      }
    } else {
      var x := 1;
      AlignUpMisses(a, x);
      assert CanAlign(x, a);
    }
  }
}
