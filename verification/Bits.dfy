/**
 The C bit operators and alignment arithmetic the kernel relies on, on natural numbers.
 Every value they are applied to is below 2^64, so no operator here loses a bit.
 */
module Bits {

  function Pow2(k: nat): (r: nat)
    ensures r >= 1
  {
    if k == 0 then 1 else 2 * Pow2(k - 1)
  }

  function Xor(a: nat, b: nat): nat
  {
    if a == 0 && b == 0 then 0
    else (if a % 2 == b % 2 then 0 else 1) + 2 * Xor(a / 2, b / 2)
  }

  function And(a: nat, b: nat): nat
  {
    if a == 0 || b == 0 then 0
    else (if a % 2 == 1 && b % 2 == 1 then 1 else 0) + 2 * And(a / 2, b / 2)
  }

  function Or(a: nat, b: nat): nat
  {
    if a == 0 && b == 0 then 0
    else (if a % 2 == 1 || b % 2 == 1 then 1 else 0) + 2 * Or(a / 2, b / 2)
  }

  // i is a multiple of 2^k (AlignedIsMod), one bit at a time.
  predicate Aligned(i: nat, k: nat)
  {
    k == 0 || (i % 2 == 0 && Aligned(i / 2, k - 1))
  }

  function AlignDown(v: nat, a: nat): nat
    requires a > 0
  {
    v / a * a
  }

  function AlignUp(v: nat, a: nat): nat
    requires a > 0
  {
    (v + a - 1) / a * a
  }

  // ---------- arithmetic of a symbolic divisor ----------

  lemma MulMono(a: int, b: int, d: nat)
    requires a <= b
    ensures a * d <= b * d
  {
  }

  lemma DivModUnique(v: nat, d: nat, q: nat, r: nat)
    requires v == q * d + r && r < d
    ensures v / d == q && v % d == r
  {
    if v / d < q {
      MulMono(v / d + 1, q, d);
    } else if q < v / d {
      MulMono(q + 1, v / d, d);
    }
  }

  // Different multiples of q are at least q apart.
  lemma MultiplesApart(a: nat, b: nat, q: nat)
    requires q > 0 && a % q == 0 && b % q == 0 && a < b
    ensures a + q <= b
  {
    if b / q <= a / q {
      MulMono(b / q, a / q, q);
    } else {
      MulMono(a / q + 1, b / q, q);
    }
  }

  // Doubling the divisor consumes one bit.
  lemma HalveDivMod(x: nat, p: nat)
    requires p > 0
    ensures x % (2 * p) == 2 * (x / 2 % p) + x % 2
    ensures x / (2 * p) * (2 * p) == 2 * (x / 2 / p * p)
  {
    var q, r := x / 2 / p, x / 2 % p;
    assert q * (2 * p) == 2 * (q * p);
    DivModUnique(x, 2 * p, q, 2 * r + x % 2);
  }

  lemma {:induction false} Pow2Mono(a: nat, b: nat)
    requires a <= b
    ensures Pow2(a) <= Pow2(b)
    ensures a < b ==> 2 * Pow2(a) <= Pow2(b)
  {
    if a < b {
      Pow2Mono(a, b - 1);
    }
  }

  lemma {:induction false} AlignedIsMod(i: nat, k: nat)
    ensures Aligned(i, k) <==> i % Pow2(k) == 0
  {
    if k > 0 {
      AlignedIsMod(i / 2, k - 1);
      HalveDivMod(i, Pow2(k - 1));
    }
  }

  lemma {:induction false} AlignedDown(i: nat, k: nat, m: nat)
    requires Aligned(i, m) && k <= m
    ensures Aligned(i, k)
  {
    if 0 < k {
      AlignedDown(i / 2, k - 1, m - 1);
    }
  }

  lemma AlignUpLeast(v: nat, a: nat)
    requires a > 0
    ensures AlignUp(v, a) % a == 0
    ensures v <= AlignUp(v, a) < v + a
    ensures forall w: nat :: v <= w && w % a == 0 ==> AlignUp(v, a) <= w
  {
    var q := (v + a - 1) / a;
    DivModUnique(q * a, a, q, 0);
    forall w: nat | v <= w && w % a == 0
      ensures AlignUp(v, a) <= w
    {
      if w / a < q {
        MulMono(w / a, q - 1, a);
      } else {
        MulMono(q, w / a, a);
      }
    }
  }

  lemma AlignDownGreatest(v: nat, a: nat)
    requires a > 0
    ensures AlignDown(v, a) % a == 0
    ensures AlignDown(v, a) <= v < AlignDown(v, a) + a
  {
    DivModUnique(v / a * a, a, v / a, 0);
  }

  // ---------- masks ----------

  // x & (2^k - 1) keeps the low k bits.
  lemma {:induction false} AndLowMask(x: nat, k: nat)
    ensures And(x, Pow2(k) - 1) == x % Pow2(k)
  {
    if k > 0 {
      AndLowMask(x / 2, k - 1);
      OneMoreBit(x, Pow2(k - 1));
    }
  }

  lemma OneMoreBit(x: nat, p: nat)
    requires p > 0 && And(x / 2, p - 1) == x / 2 % p
    ensures And(x, 2 * p - 1) == x % (2 * p)
  {
    hide And;
    AndOdd(x, p);
    HalveDivMod(x, p);
  }

  lemma AndOdd(x: nat, p: nat)
    requires p > 0
    ensures And(x, 2 * p - 1) == 2 * And(x / 2, p - 1) + x % 2
  {
    assert (2 * p - 1) / 2 == p - 1;
  }

  // x & ~(2^k - 1) on a w-bit word is the largest multiple of 2^k not above x.
  lemma {:induction false} AndHighMask(x: nat, k: nat, w: nat)
    requires k <= w && x < Pow2(w)
    ensures Pow2(k) <= Pow2(w)
    ensures And(x, Pow2(w) - 1 - (Pow2(k) - 1)) == AlignDown(x, Pow2(k))
  {
    Pow2Mono(k, w);
    if k == 0 {
      AndLowMask(x, w);
      DivModUnique(x, Pow2(w), 0, x);
    } else {
      assert (Pow2(w) - Pow2(k)) / 2 == Pow2(w - 1) - Pow2(k - 1);
      AndHighMask(x / 2, k - 1, w - 1);
      HalveDivMod(x, Pow2(k - 1));
    }
  }

  // Or-ing flags into the cleared low bits of a shifted number is addition.
  lemma {:induction false} OrLow(hi: nat, lo: nat, k: nat)
    requires lo < Pow2(k)
    ensures Or(hi * Pow2(k), lo) == hi * Pow2(k) + lo
  {
    if k == 0 {
      OrZero(hi);
    } else {
      OrLow(hi, lo / 2, k - 1);
      var p := Pow2(k - 1);
      assert hi * (2 * p) == 2 * (hi * p);
    }
  }

  lemma {:induction false} OrZero(a: nat)
    ensures Or(a, 0) == a
  {
    if a > 0 {
      OrZero(a / 2);
    }
  }

  // ---------- buddies ----------

  // The buddy of an aligned block, by arithmetic.
  function Buddy(i: nat, k: nat): nat
  {
    if Aligned(i, k + 1) then i + Pow2(k) else if i >= Pow2(k) then i - Pow2(k) else 0
  }

  // Flipping one bit is its own inverse, and on an aligned index it is the move to the
  // other half of the enclosing block of twice the size.
  lemma {:induction false} XorIsBuddy(i: nat, k: nat)
    requires Aligned(i, k)
    ensures Xor(i, Pow2(k)) == Buddy(i, k)
    ensures Aligned(i, k + 1) || i >= Pow2(k)
  {
    if k == 0 {
      assert Aligned(i, 1) <==> i % 2 == 0;
      XorZero(i / 2);
    } else {
      XorIsBuddy(i / 2, k - 1);
      assert Pow2(k) / 2 == Pow2(k - 1) && Pow2(k) % 2 == 0;
    }
  }

  lemma {:induction false} XorZero(a: nat)
    ensures Xor(a, 0) == a
  {
    if a > 0 {
      XorZero(a / 2);
    }
  }
}
