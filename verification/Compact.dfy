/**
 * Targets, work and the compact nBits encoding: the 256-bit arithmetic of `CachedHeader` and of
 * `satoshi_the_precision`. Integers are unbounded here, so every place where `Uint256` drops high
 * bits is written as a remainder modulo 2^256.
 */
module Compact {
  import opened Powers

  type Word = w: int | 0 <= w < TWO_32

  /** The difficulty-1 target: 0xFFFF shifted left by 26 bytes. */
  const MAX_TARGET: nat := 0xFFFF_00000000_00000000_00000000_00000000_00000000_00000000_0000

  /** What a `Uint256` keeps of a larger number. */
  function Wrap(n: nat): (r: nat)
    ensures r < TWO_256
    ensures n < TWO_256 ==> r == n
  {
    n % TWO_256
  }

  /** Shifts left by whole bytes. */
  function ShiftLeft(n: nat, k: nat): (r: nat)
  {
    if k == 0 then n else 0x100 * ShiftLeft(n, k - 1)
  }

  /** Shifts right by whole bytes. */
  function ShiftRight(n: nat, k: nat): (r: nat)
  {
    if k == 0 then n else ShiftRight(n, k - 1) / 0x100
  }

  /** Shifts left by whole bytes within 256 bits. */
  function ShiftBytes(n: nat, k: nat): (r: nat)
    ensures r < TWO_256
  {
    Wrap(ShiftLeft(n, k))
  }

  /** Decodes nBits. A mantissa with its sign bit set decodes to zero; high bits shifted out are lost. */
  function Target(bits: Word): (t: nat)
  {
    var expt := bits / 0x100_0000;
    var mant := bits % 0x100_0000;
    if expt <= 3 then
      var m := ShiftRight(mant, 3 - expt);
      if m > 0x7F_FFFF then 0 else m
    else
      if mant > 0x7F_FFFF then 0 else ShiftBytes(mant, expt - 3)
  }

  /** Work of one block, on 256-bit words: complement divided by target + 1, plus one, wrapping. */
  function Work(target: nat): (w: nat)
    requires target < TWO_256 - 1
  {
    Wrap(Quot(TWO_256 - 1 - target, target + 1) + 1)
  }

  /** Number of significant bits. */
  function Bits(n: nat): (b: nat)
  {
    if n == 0 then 0 else 1 + Bits(n / 2)
  }

  /** Number of significant bytes. */
  function ByteLength(n: nat): (l: nat)
  {
    (Bits(n) + 7) / 8
  }

  /**
   * `satoshi_the_precision`: keep three significant bytes, or two when the third would set the
   * mantissa's sign bit. The source subtracts 3 from the byte length in unsigned arithmetic.
   */
  function Precision(n: nat): (p: nat)
    requires ByteLength(n) >= 3
  {
    var m := ShiftRight(n, ByteLength(n) - 3);
    var kept := if m / 0x80_0000 % 2 == 1 then m / 0x100 * 0x100 else m;
    ShiftLeft(kept, ByteLength(n) - 3)
  }

  // ----- shifts as products and quotients

  lemma {:induction false} ShiftLeftIs(n: nat, k: nat)
    ensures ShiftLeft(n, k) == n * Pow256(k)
    decreases k
  {
    if k > 0 {
      ShiftLeftIs(n, k - 1);
      TimesByte(n, Pow256(k - 1));
    }
  }

  lemma {:induction false} ShiftRightBounds(n: nat, k: nat)
    ensures ShiftRight(n, k) * Pow256(k) <= n < ShiftRight(n, k) * Pow256(k) + Pow256(k)
    decreases k
  {
    if k > 0 {
      ShiftRightBounds(n, k - 1);
      ByteQuotient(n, ShiftRight(n, k - 1), Pow256(k - 1));
    } else {
      assert Pow256(0) == 1;
    }
  }

  lemma ByteQuotient(n: nat, m: nat, p: nat)
    requires m * p <= n < m * p + p
    ensures m / 0x100 * (256 * p) <= n < m / 0x100 * (256 * p) + 256 * p
  {
    var q := m / 0x100;
    TimesByte(q, p);
    MulAssoc(256, q, p);
    MulMono(256 * q, m, p);
    MulMono(m + 1, 256 * q + 256, p);
    assert (256 * q + 256) * p == 256 * q * p + 256 * p;
    assert (m + 1) * p == m * p + p;
  }

  // ----- what a word decodes to

  /**
   * The value of every nBits word, by its exponent byte and mantissa. From exponent 3 on, the
   * mantissa times 256 to the exponent less 3, within 256 bits, or zero if its sign bit is set;
   * below 3, the mantissa without its low bytes, which cannot have the sign bit set.
   */
  lemma TargetDecodes(expt: nat, mant: nat)
    requires expt <= 0xFF && mant <= 0xFF_FFFF
    ensures var w: Word := expt * 0x100_0000 + mant;
            Target(w) == if expt < 3 then mant / Pow256(3 - expt)
                         else if mant <= 0x7F_FFFF then mant * Pow256(expt - 3) % TWO_256
                         else 0
  {
    var w: Word := expt * 0x100_0000 + mant;
    assert w / 0x100_0000 == expt && w % 0x100_0000 == mant;
    if expt < 3 {
      LowBytes(mant, 3 - expt);
    } else {
      ShiftLeftIs(mant, expt - 3);
      assert Pow256(0) == 1;
      hide Pow256, ShiftLeft;
    }
  }

  lemma LowBytes(mant: nat, k: nat)
    requires mant <= 0xFF_FFFF && 1 <= k <= 3
    ensures ShiftRight(mant, k) == mant / Pow256(k) <= 0xFFFF
  {
    Pow256Values();
    hide Pow256;
    if k == 2 {
      assert ShiftRight(mant, 1) == mant / 0x100;
    } else if k == 3 {
      assert ShiftRight(mant, 1) == mant / 0x100 && ShiftRight(mant, 2) == mant / 0x100 / 0x100;
    }
  }

  // ----- the values the encoding can express

  ghost predicate Expressible(v: nat) {
    exists w: Word :: Target(w) == v
  }

  /** Every decoded target is a 23-bit mantissa shifted by whole bytes within 256 bits. */
  lemma TargetShape(w: Word) returns (b: nat, j: nat)
    ensures b < 0x80_0000 && j <= 32 && Target(w) == b * Pow256(j)
  {
    hide Pow256, ShiftRight, ShiftBytes;
    var expt := w / 0x100_0000;
    var mant := w % 0x100_0000;
    Pow256Values();
    if expt > 3 && mant <= 0x7F_FFFF {
      b, j := ShiftShape(mant, expt - 3);
    } else {
      b, j := Target(w), 0;
    }
  }

  /** Shifting by whole bytes within 256 bits keeps the low part of the mantissa. */
  lemma ShiftShape(mant: nat, s: nat) returns (b: nat, j: nat)
    ensures b <= mant && j <= 32 && ShiftBytes(mant, s) == b * Pow256(j)
  {
    hide Pow256, ShiftLeft;
    Pow256Values();
    ShiftLeftIs(mant, s);
    if s <= 32 {
      Pow256Sum(32 - s, s);
      ModMultiple(mant, Pow256(s), Pow256(32 - s));
      b, j := mant % Pow256(32 - s), s;
      ModBelow(mant, Pow256(32 - s));
    } else {
      Pow256Sum(s - 32, 32);
      MulAssoc(mant, Pow256(s - 32), TWO_256);
      ModUnique(mant * Pow256(s), TWO_256, mant * Pow256(s - 32), 0);
      b, j := 0, 0;
    }
  }

  lemma ModBelow(a: nat, d: nat)
    requires d > 0
    ensures a % d <= a
  {
  }

  /** The decoded target fits in 256 bits and is never the all-ones word, so `target + 1` never wraps. */
  lemma TargetBound(w: Word)
    ensures Target(w) < TWO_256 - 1
  {
    var b, j := TargetShape(w);
    if j > 0 {
      assert Pow256(j) == 256 * Pow256(j - 1);
      TimesByte(b, Pow256(j - 1));
    } else {
      assert Pow256(0) == 1;
    }
  }

  lemma TimesByte(b: nat, p: nat)
    ensures b * (256 * p) == 256 * (b * p)
  {
  }

  // ----- byte length

  lemma {:induction false} BitsBounds(n: nat)
    requires n > 0
    ensures Bits(n) > 0 && Pow2(Bits(n) - 1) <= n < Pow2(Bits(n))
  {
    if n == 1 {
      assert Bits(1) == 1 + Bits(0);
    } else {
      BitsBounds(n / 2);
      assert Bits(n) == 1 + Bits(n / 2);
    }
  }

  lemma {:induction false} Pow2Bytes(k: nat)
    ensures Pow2(8 * k) == Pow256(k)
  {
    if k > 0 {
      Pow2Bytes(k - 1);
      Pow2Step8(8 * (k - 1));
    }
  }

  lemma Pow2Step8(m: nat)
    ensures Pow2(m + 8) == 256 * Pow2(m)
  {
    assert Pow2(m + 2) == 2 * Pow2(m + 1) == 4 * Pow2(m);
    assert Pow2(m + 4) == 2 * Pow2(m + 3) == 4 * Pow2(m + 2);
    assert Pow2(m + 6) == 2 * Pow2(m + 5) == 4 * Pow2(m + 4);
    assert Pow2(m + 8) == 2 * Pow2(m + 7) == 4 * Pow2(m + 6);
  }

  lemma {:induction false} Pow2Mono(a: nat, b: nat)
    requires a <= b
    ensures Pow2(a) <= Pow2(b)
    decreases b
  {
    if a < b {
      Pow2Mono(a, b - 1);
    }
  }

  lemma ByteLengthBounds(n: nat)
    requires n > 0
    ensures ByteLength(n) > 0 && Pow256(ByteLength(n) - 1) <= n < Pow256(ByteLength(n))
  {
    var l := ByteLength(n);
    BitsBounds(n);
    Pow2Mono(Bits(n), 8 * l);
    Pow2Mono(8 * (l - 1), Bits(n) - 1);
    Pow2Bytes(l);
    Pow2Bytes(l - 1);
  }

  /** `bits() + 7 / 8 - 3` does not underflow exactly when n has a third byte. */
  lemma PrecisionDefined(n: nat)
    ensures ByteLength(n) >= 3 <==> n >= 0x1_0000
  {
    Pow256Values();
    if n > 0 {
      ByteLengthBounds(n);
      if ByteLength(n) >= 3 {
        Pow256Mono(2, ByteLength(n) - 1);
      } else {
        Pow256Mono(ByteLength(n), 2);
      }
    }
  }

  lemma ByteLengthFits(n: nat)
    requires 0 < n < TWO_256
    ensures ByteLength(n) <= 32
  {
    ByteLengthBounds(n);
    Pow256Values();
    if ByteLength(n) > 32 {
      Pow256Mono(32, ByteLength(n) - 1);
    }
  }

  // ----- what satoshi_the_precision computes

  /** The leading three bytes of n, with the facts every later step uses. */
  lemma LeadingBytes(n: nat) returns (k: nat, m: nat)
    requires n >= 0x1_0000
    ensures ByteLength(n) == k + 3 && m == ShiftRight(n, k)
    ensures 0x1_0000 <= m < 0x100_0000
    ensures m * Pow256(k) <= n < m * Pow256(k) + Pow256(k)
  {
    hide ByteLength, Pow256, ShiftRight;
    PrecisionDefined(n);
    ByteLengthBounds(n);
    k := ByteLength(n) - 3;
    m := ShiftRight(n, k);
    ShiftRightBounds(n, k);
    Pow256Values();
    Pow256Sum(2, k);
    Pow256Sum(3, k);
    QuotientRange(n, m, Pow256(k));
  }

  lemma QuotientRange(n: nat, m: nat, p: nat)
    requires 0x1_0000 * p <= n < 0x100_0000 * p
    requires m * p <= n < m * p + p
    ensures 0x1_0000 <= m < 0x100_0000
  {
    MulCancel(0x1_0000, m + 1, p);
    MulCancel(m, 0x100_0000, p);
  }

  /** The kept mantissa of n: what `Precision` multiplies back. */
  lemma PrecisionParts(n: nat) returns (k: nat, m: nat, kept: nat)
    requires n >= 0x1_0000
    ensures ByteLength(n) == k + 3
    ensures Precision(n) == kept * Pow256(k)
    ensures 0x1_0000 <= m < 0x100_0000
    ensures m * Pow256(k) <= n < m * Pow256(k) + Pow256(k)
    ensures kept == if m >= 0x80_0000 then m / 0x100 * 0x100 else m
  {
    hide ShiftLeft, ShiftRight, ByteLength, Pow256;
    k, m := LeadingBytes(n);
    kept := if m / 0x80_0000 % 2 == 1 then m / 0x100 * 0x100 else m;
    ShiftLeftIs(kept, k);
  }

  /** The word with a given exponent byte and mantissa decodes to the shifted mantissa. */
  lemma EncodedWord(expt: nat, mant: nat) returns (w: Word)
    requires 3 <= expt <= 255 && mant <= 0x7F_FFFF
    ensures w == expt * 0x100_0000 + mant
    ensures Target(w) == ShiftBytes(mant, expt - 3)
  {
    w := expt * 0x100_0000 + mant;
    TargetDecodes(expt, mant);
    ShiftLeftIs(mant, expt - 3);
    hide Target, Pow256, ShiftLeft;
  }

  /** The result never exceeds n and some nBits word decodes to it exactly. */
  lemma PrecisionExpressible(n: nat)
    requires 0x1_0000 <= n < TWO_256
    ensures ByteLength(n) >= 3
    ensures Precision(n) <= n && Expressible(Precision(n))
  {
    var k, m, kept := PrecisionParts(n);
    MulMono(kept, m, Pow256(k));
    ByteLengthFits(n);
    hide Precision, ByteLength, ShiftLeft, Target;
    if m >= 0x80_0000 {
      var mant := m / 0x100;
      var w := EncodedWord(k + 4, mant);
      ShiftLeftIs(mant, k + 1);
      TimesByte(mant, Pow256(k));
      MulAssoc(0x100, mant, Pow256(k));
      assert mant * Pow256(k + 1) == Precision(n);
    } else {
      var w := EncodedWord(k + 3, m);
      ShiftLeftIs(m, k);
    }
  }

  /** No expressible value lies strictly between the result and n. */
  lemma PrecisionGreatest(n: nat, v: nat)
    requires 0x1_0000 <= n < TWO_256
    requires Expressible(v) && v <= n
    ensures ByteLength(n) >= 3
    ensures v <= Precision(n)
  {
    var k, m, kept := PrecisionParts(n);
    var w: Word :| Target(w) == v;
    var b, j := TargetShape(w);
    if j >= k {
      ShiftedBelow(n, k, m, kept, b, j);
    } else {
      // fewer shifted bytes than n has: v is below the smallest number as long as n
      Pow256Mono(j, k);
      assert 256 * Pow256(j) <= Pow256(k);
      MulMono(b, 0x80_0000, Pow256(j));
      assert v <= 0x8000 * (256 * Pow256(j)) <= 0x8000 * Pow256(k);
      MulMono(0x8000, kept, Pow256(k));
    }
  }

  /** A mantissa shifted at least as far as n's own stays below n's kept mantissa. */
  lemma ShiftedBelow(n: nat, k: nat, m: nat, kept: nat, b: nat, j: nat)
    requires 0x1_0000 <= m < 0x100_0000
    requires kept == if m >= 0x80_0000 then m / 0x100 * 0x100 else m
    requires n < m * Pow256(k) + Pow256(k)
    requires b < 0x80_0000 && k <= j && b * Pow256(j) <= n
    ensures b * Pow256(j) <= kept * Pow256(k)
  {
    var u := SplitShift(b, k, j);
    QuotientAbove(u, m, Pow256(k), n);
    KeptAbove(m, b, j - k);
    MulMono(u, kept, Pow256(k));
  }

  lemma SplitShift(b: nat, k: nat, j: nat) returns (u: nat)
    requires k <= j
    ensures u == b * Pow256(j - k)
    ensures u * Pow256(k) == b * Pow256(j)
  {
    u := b * Pow256(j - k);
    Pow256Sum(j - k, k);
    MulAssoc(b, Pow256(j - k), Pow256(k));
  }

  lemma QuotientAbove(u: nat, m: nat, p: nat, n: nat)
    requires u * p <= n < m * p + p
    ensures u <= m
  {
    if u > m {
      MulMono(m + 1, u, p);
    }
  }

  /** Dropping the low byte of a mantissa with its sign bit set loses no expressible value. */
  lemma KeptAbove(m: nat, b: nat, i: nat)
    requires 0x1_0000 <= m < 0x100_0000 && b < 0x80_0000
    requires b * Pow256(i) <= m
    ensures b * Pow256(i) <= if m >= 0x80_0000 then m / 0x100 * 0x100 else m
  {
    if i == 0 {
      assert b * Pow256(0) == b;
    } else {
      TimesByte(b, Pow256(i - 1));
    }
  }

  /**
   * `satoshi_the_precision(n)` is the greatest value not above n that an nBits word can express,
   * for every n on which the source does not underflow.
   */
  lemma PrecisionIsGreatestExpressible(n: nat, p: nat)
    requires 0x1_0000 <= n < TWO_256
    ensures ByteLength(n) >= 3
    ensures p == Precision(n) <==>
            Expressible(p) && p <= n && forall v: nat :: Expressible(v) && v <= n ==> v <= p
  {
    PrecisionExpressible(n);
    forall v: nat | Expressible(v) && v <= n
      ensures v <= Precision(n)
    {
      PrecisionGreatest(n, v);
    }
  }

  /** Compacting twice is compacting once, and larger inputs give no smaller outputs. */
  lemma PrecisionIdempotentMonotone(n: nat, n': nat)
    requires 0x1_0000 <= n <= n' < TWO_256
    ensures ByteLength(n) >= 3 && ByteLength(n') >= 3
    ensures 0x1_0000 <= Precision(n) <= Precision(n')
    ensures ByteLength(Precision(n)) >= 3 && Precision(Precision(n)) == Precision(n)
  {
    PrecisionExpressible(n);
    PrecisionExpressible(n');
    PrecisionGreatest(n', Precision(n));
    PrecisionLower(n);
    PrecisionExpressible(Precision(n));
    PrecisionGreatest(Precision(n), Precision(n));
  }

  lemma PrecisionLower(n: nat)
    requires n >= 0x1_0000
    ensures ByteLength(n) >= 3 && Precision(n) >= 0x1_0000
  {
    hide Precision, ByteLength, Pow256;
    var k, m, kept := PrecisionParts(n);
    MulMono(1, Pow256(k), kept);
  }

  /** Compacting loses less than one part in 2^15. */
  lemma PrecisionLoss(n: nat)
    requires 0x1_0000 <= n < TWO_256
    ensures ByteLength(n) >= 3
    ensures Precision(n) <= n && (n - Precision(n)) * 0x8000 < n
  {
    var k, m, kept := PrecisionParts(n);
    KeptLoss(n, m, kept, Pow256(k));
  }

  lemma KeptLoss(n: nat, m: nat, kept: nat, p: nat)
    requires 0x1_0000 <= m < 0x100_0000
    requires m * p <= n < m * p + p
    requires kept == if m >= 0x80_0000 then m / 0x100 * 0x100 else m
    ensures kept * p <= n && (n - kept * p) * 0x8000 < n
  {
    MulMono(kept, m, p);
    if m >= 0x80_0000 {
      MulMono(m, kept + 0xFF, p);
      MulMono(0x80_0000, m, p);
    } else {
      MulMono(0x1_0000, m, p);
    }
  }

  // ----- work

  /** The 256-bit formula computes 2^256 / (target + 1), except that a zero target wraps to zero work. */
  lemma WorkIsQuotient(target: nat)
    requires target < TWO_256 - 1
    ensures Work(target) == if target == 0 then 0 else Quot(TWO_256, target + 1)
    ensures target > 0 ==> Work(target) > 0
  {
    hide Quot;
    var d := target + 1;
    var q := Quot(TWO_256 - d, d);
    DivBounds(TWO_256 - d, d);
    assert (q + 1) * d == q * d + d;
    DivUnique(TWO_256, d, q + 1);
    if target > 0 {
      MulMono(2, d, q + 1);
      assert 2 * (q + 1) <= TWO_256;
    }
  }

  /** Work below 2^128 means the target is at least 2^128. */
  lemma SmallWorkLargeTarget(target: nat)
    requires 0 < target < TWO_256 - 1 && Work(target) < TWO_128
    ensures target >= TWO_128
  {
    hide Work, Quot;
    WorkIsQuotient(target);
    DivBounds(TWO_256, target + 1);
    LargeDivisor(Work(target), target + 1);
  }

  /** A quotient of 2^256 below 2^128 has a divisor above 2^128. */
  lemma LargeDivisor(q: nat, d: nat)
    requires TWO_256 < q * d + d && q < TWO_128
    ensures d > TWO_128
  {
    assert (q + 1) * d == q * d + d;
    MulMono(q + 1, TWO_128, d);
    if d <= TWO_128 {
      MulMono(d, TWO_128, TWO_128);
    }
  }
}
