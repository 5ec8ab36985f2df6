/**
 * Bit-level arithmetic on non-negative integers: powers of two, bitwise AND
 * and OR computed bit by bit, logical right shift, and the left shift of an
 * unsigned 8-bit sample (which wraps modulo 256).  The lemmas relate the
 * mask operations used by the codec to division and remainder.
 */
module BitOps {

  /** 2^n. */
  function Pow2(n: nat): (r: nat)
    ensures r >= 1
  {
    if n == 0 then 1 else 2 * Pow2(n - 1)
  }

  /** Bitwise AND of two non-negative integers. */
  function And(a: nat, b: nat): (r: nat)
    ensures r <= a && r <= b
    decreases a
  {
    if a == 0 || b == 0 then 0
    else 2 * And(a / 2, b / 2) + (if a % 2 == 1 && b % 2 == 1 then 1 else 0)
  }

  /** Bitwise OR of two non-negative integers. */
  function Or(a: nat, b: nat): (r: nat)
    ensures a <= r && b <= r && r <= a + b
    decreases a + b
  {
    if a == 0 then b
    else if b == 0 then a
    else 2 * Or(a / 2, b / 2) + (if a % 2 == 1 || b % 2 == 1 then 1 else 0)
  }

  /** Logical right shift `a >> n`: n single-bit shifts. */
  function Shr(a: nat, n: nat): (r: nat)
    ensures r <= a
  {
    if n == 0 then a else Shr(a / 2, n - 1)
  }

  /** The number formed by the low n bits of a, the bits that `a >> n` drops. */
  function Low(a: nat, n: nat): (r: nat)
    ensures r < Pow2(n)
  {
    if n == 0 then 0 else 2 * Low(a / 2, n - 1) + a % 2
  }

  /** Left shift `a << n` of an unsigned 8-bit value: bits pushed past bit 7 are lost. */
  function Shl8(a: nat, n: nat): (r: nat)
    ensures r < 256
    ensures a * Pow2(n) < 256 ==> r == a * Pow2(n)
  {
    (a * Pow2(n)) % 256
  }

  // ---------------------------------------------------------------------
  // Arithmetic facts about powers of two, division and remainder.

  /** Division and remainder by a positive divisor are determined by any exact decomposition. */
  lemma DivModUnique(a: int, d: int, q: int, r: int)
    requires d > 0 && 0 <= r < d && a == q * d + r
    ensures a / d == q && a % d == r
  {
    var q', r' := a / d, a % d;
    assert a == q' * d + r';
    if q' < q {
      MulMonotone(q' + 1, q, d);
    } else if q < q' {
      MulMonotone(q + 1, q', d);
    }
  }

  lemma DivModDecompose(a: int, d: int)
    requires d > 0
    ensures a == (a / d) * d + a % d && 0 <= a % d < d
  {
  }

  lemma MulMonotone(x: int, y: int, d: nat)
    requires x <= y
    ensures x * d <= y * d
  {
    assert y * d - x * d == (y - x) * d;
  }

  /** x < a means (x + 1) * b fits in a * b. */
  lemma MulBelow(x: nat, a: nat, b: nat)
    requires x < a
    ensures x * b + b <= a * b
  {
    MulMonotone(x + 1, a, b);
    assert (x + 1) * b == x * b + b;
  }

  lemma MulDouble(x: int, y: int)
    ensures x * (2 * y) == 2 * (x * y)
  {
  }

  lemma {:induction false} Pow2Add(m: nat, n: nat)
    ensures Pow2(m + n) == Pow2(m) * Pow2(n)
  {
    if m > 0 {
      Pow2Add(m - 1, n);
      assert Pow2(m + n) == 2 * Pow2(m - 1 + n);
    }
  }

  lemma {:induction false} Pow2Monotone(k: nat, n: nat)
    requires k <= n
    ensures Pow2(k) <= Pow2(n)
  {
    if k < n {
      Pow2Monotone(k, n - 1);
    }
  }

  lemma Pow2Eight()
    ensures Pow2(8) == 256
  {
  }

  // ---------------------------------------------------------------------
  // Splitting a number at bit n.

  /** a is its bits above n, shifted back into place, plus its low n bits. */
  lemma {:induction false} Split(a: nat, n: nat)
    ensures a == Shr(a, n) * Pow2(n) + Low(a, n)
  {
    if n > 0 {
      Split(a / 2, n - 1);
      MulDouble(Shr(a / 2, n - 1), Pow2(n - 1));
    }
  }

  /** `a >> n` is the quotient and the low n bits are the remainder of division by 2^n. */
  lemma ShrLowAreDivMod(a: nat, n: nat)
    ensures Shr(a, n) == a / Pow2(n) && Low(a, n) == a % Pow2(n)
  {
    Split(a, n);
    DivModUnique(a, Pow2(n), Shr(a, n), Low(a, n));
  }

  /** Shifting a value below 2^n right by k leaves a value below 2^(n-k). */
  lemma {:induction false} ShrBelow(a: nat, n: nat, k: nat)
    requires k <= n && a < Pow2(n)
    ensures Shr(a, k) < Pow2(n - k)
  {
    if k > 0 {
      ShrBelow(a / 2, n - 1, k - 1);
    }
  }

  /** A value below 2^n has nothing above bit n. */
  lemma SmallSplit(a: nat, n: nat)
    requires a < Pow2(n)
    ensures Shr(a, n) == 0 && Low(a, n) == a
  {
    ShrBelow(a, n, n);
    Split(a, n);
  }

  // ---------------------------------------------------------------------
  // Masks.

  /** `a & (2^k - 1)` keeps the low k bits of a. */
  lemma {:induction false} AndLowMask(a: nat, k: nat)
    ensures And(a, Pow2(k) - 1) == Low(a, k)
  {
    AndOnes(a, Pow2(k) - 1, k);
  }

  lemma {:induction false} AndOnes(a: nat, m: nat, k: nat)
    requires m + 1 == Pow2(k)
    ensures And(a, m) == Low(a, k)
  {
    if k == 0 {
      assert m == 0;
    } else {
      var h, b, m' := a / 2, a % 2, m / 2;
      assert m == 2 * m' + 1 && m' + 1 == Pow2(k - 1);
      AndOnes(h, m', k - 1);
      if a == 0 {
        assert And(a, m) == 0;
      } else {
        assert And(a, m) == 2 * And(h, m') + b;
      }
      assert Low(a, k) == 2 * Low(h, k - 1) + b;
    }
  }

  /** For a below 2^n, `a & (2^n - 2^k)` clears the low k bits of a. */
  lemma AndHighMask(a: nat, n: nat, k: nat)
    requires k <= n && a < Pow2(n)
    ensures Pow2(k) <= Pow2(n)
    ensures And(a, Pow2(n) - Pow2(k)) == Shr(a, k) * Pow2(k)
  {
    Pow2Monotone(k, n);
    AndZeros(a, Pow2(n) - Pow2(k), n, k);
  }

  lemma {:induction false} AndZeros(a: nat, m: nat, n: nat, k: nat)
    requires k <= n && a < Pow2(n) && m + Pow2(k) == Pow2(n)
    ensures And(a, m) == Shr(a, k) * Pow2(k)
  {
    if k == 0 {
      AndOnes(a, m, n);
      SmallSplit(a, n);
      assert Shr(a, 0) == a && Pow2(0) == 1;
    } else {
      var h, m', pk := a / 2, m / 2, Pow2(k - 1);
      assert m == 2 * m' && m' + pk == Pow2(n - 1);
      AndZeros(h, m', n - 1, k - 1);
      if a == 0 || m == 0 {
        assert And(a, m) == 0 && And(h, m') == 0;
      } else {
        assert And(a, m) == 2 * And(h, m');
      }
      assert Shr(a, k) == Shr(h, k - 1);
      MulDouble(Shr(h, k - 1), pk);
    }
  }

  /** OR of a multiple of 2^k with a value below 2^k is their sum: the bits do not overlap. */
  lemma {:induction false} OrDisjoint(h: nat, l: nat, k: nat)
    requires l < Pow2(k)
    ensures Or(h * Pow2(k), l) == h * Pow2(k) + l
  {
    var x := h * Pow2(k);
    if k > 0 && x > 0 && l > 0 {
      assert x == 2 * (h * Pow2(k - 1));
      assert x / 2 == h * Pow2(k - 1) && x % 2 == 0;
      OrDisjoint(h, l / 2, k - 1);
    }
  }
}
