/** Powers of 256 (byte shifts) and of 2, and the few facts about them that the target arithmetic needs. */
module Powers {
  /** 256 to the k: shifting left by k bytes multiplies by it. */
  function Pow256(k: nat): (p: nat)
    ensures p >= 1
  {
    if k == 0 then 1 else 256 * Pow256(k - 1)
  }

  function Pow2(k: nat): (p: nat)
    ensures p >= 1
  {
    if k == 0 then 1 else 2 * Pow2(k - 1)
  }

  const TWO_256: nat := 0x1_0000000000000000_0000000000000000_0000000000000000_0000000000000000
  const TWO_128: nat := 0x1_0000000000000000_0000000000000000
  const TWO_32: nat := 0x1_0000_0000

  lemma {:induction false} Pow256Sum(a: nat, b: nat)
    ensures Pow256(a + b) == Pow256(a) * Pow256(b)
    decreases a
  {
    if a > 0 {
      Pow256Sum(a - 1, b);
      assert Pow256(a + b) == 256 * Pow256(a - 1 + b);
    }
  }

  lemma {:induction false} Pow256Mono(a: nat, b: nat)
    requires a <= b
    ensures Pow256(a) <= Pow256(b)
    ensures a < b ==> 256 * Pow256(a) <= Pow256(b)
    decreases b
  {
    if a < b {
      Pow256Mono(a, b - 1);
    }
  }

  lemma Pow256Values()
    ensures Pow256(0) == 1 && Pow256(1) == 0x100 && Pow256(2) == 0x1_0000 && Pow256(3) == 0x100_0000
    ensures Pow256(32) == TWO_256
  {
    assert Pow256(4) == 0x1_0000_0000;
    Pow256Sum(4, 4);
    Pow256Sum(8, 8);
    Pow256Sum(16, 16);
  }

  // Multiplication and division facts, each on its own so that the solver meets one product at a time.

  lemma MulMono(a: nat, b: nat, c: nat)
    requires a <= b
    ensures a * c <= b * c
  {
  }

  lemma MulAssoc(a: nat, b: nat, c: nat)
    ensures a * b * c == a * (b * c)
  {
  }

  lemma MulStrict(a: nat, b: nat, c: nat)
    requires a < b && c > 0
    ensures a * c < b * c
  {
  }

  lemma MulCancel(a: nat, b: nat, c: nat)
    requires a * c < b * c
    ensures a < b
  {
    if a >= b {
      MulMono(b, a, c);
    }
  }

  /** Binary long division, the way `Uint256` divides: quotient and remainder. */
  function DivMod(n: nat, d: nat): (r: (nat, nat))
    requires d > 0
  {
    if n == 0 then (0, 0)
    else
      var half := DivMod(n / 2, d);
      var rem := 2 * half.1 + n % 2;
      if rem >= d then (2 * half.0 + 1, rem - d) else (2 * half.0, rem)
  }

  function Quot(n: nat, d: nat): (q: nat)
    requires d > 0
  {
    DivMod(n, d).0
  }

  lemma {:induction false} DivModIs(n: nat, d: nat)
    requires d > 0
    ensures n == DivMod(n, d).0 * d + DivMod(n, d).1 && DivMod(n, d).1 < d
  {
    if n > 0 {
      DivModIs(n / 2, d);
      var half := DivMod(n / 2, d);
      var rem := 2 * half.1 + n % 2;
      assert DivMod(n, d) == if rem >= d then (2 * half.0 + 1, rem - d) else (2 * half.0, rem);
      hide DivMod;
      DoubleProduct(half.0, d);
      assert n == 2 * (n / 2) + n % 2;
    }
  }

  lemma DoubleProduct(q: nat, d: nat)
    ensures 2 * q * d == 2 * (q * d) && (2 * q + 1) * d == 2 * (q * d) + d
  {
  }

  lemma DivBounds(n: nat, d: nat)
    requires d > 0
    ensures Quot(n, d) * d <= n < Quot(n, d) * d + d
  {
    DivModIs(n, d);
  }

  /** Binary shift-and-add multiplication. */
  function Times(a: nat, b: nat): (p: nat)
  {
    if b == 0 then 0 else 2 * Times(a, b / 2) + if b % 2 == 1 then a else 0
  }

  lemma {:induction false} TimesIs(a: nat, b: nat)
    ensures Times(a, b) == a * b
  {
    if b > 0 {
      TimesIs(a, b / 2);
      assert Times(a, b) == 2 * Times(a, b / 2) + if b % 2 == 1 then a else 0;
      hide Times;
      HalfProduct(a, b / 2, b % 2);
      assert b == 2 * (b / 2) + b % 2;
    }
  }

  lemma HalfProduct(a: nat, h: nat, bit: nat)
    requires bit <= 1
    ensures a * (2 * h + bit) == 2 * (a * h) + if bit == 1 then a else 0
  {
  }

  /** The quotient is the only q with q*d <= n < (q+1)*d. */
  lemma DivUnique(n: nat, d: nat, q: nat)
    requires d > 0
    requires q * d <= n < q * d + d
    ensures Quot(n, d) == q
  {
    hide Quot;
    DivBounds(n, d);
    var p := Quot(n, d);
    if p < q {
      NextMultiple(p, q, d);
    } else if q < p {
      NextMultiple(q, p, d);
    }
  }

  lemma NextMultiple(a: nat, b: nat, d: nat)
    requires a < b
    ensures a * d + d <= b * d
  {
    MulMono(a + 1, b, d);
    assert (a + 1) * d == a * d + d;
  }

  /** A remainder modulo `e * d` of a multiple of d is a multiple of d. */
  lemma ModMultiple(a: nat, d: nat, e: nat)
    requires d > 0 && e > 0
    ensures e * d > 0 && (a * d) % (e * d) == (a % e) * d
  {
    assert e * d > 0 by { MulStrict(0, e, d); }
    var q := a / e;
    assert a == e * q + a % e;
    assert a * d == q * (e * d) + (a % e) * d;
    MulStrict(a % e, e, d);
    ModUnique(a * d, e * d, q, (a % e) * d);
  }

  lemma ModUnique(n: nat, d: nat, q: nat, r: nat)
    requires d > 0 && n == q * d + r && r < d
    ensures n % d == r
  {
    var p := n / d;
    assert n == d * p + n % d;
    if p < q {
      MulMono(p + 1, q, d);
    } else if q < p {
      MulMono(q + 1, p, d);
    }
  }
}
