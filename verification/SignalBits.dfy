/**
 A word as a set of bits: what the C operators do to one bit, and the ascending list of the
 signal numbers a word holds.
 */
module SignalBits {
  import opened Bits

  predicate Bit(n: nat, k: nat)
  {
    if k == 0 then n % 2 == 1 else Bit(n / 2, k - 1)
  }

  lemma {:induction false} ZeroBits(k: nat)
    ensures !Bit(0, k)
  {
    if k > 0 {
      ZeroBits(k - 1);
    }
  }

  // n & (1 << k) tests bit k.
  lemma {:induction false} AndTests(n: nat, k: nat)
    ensures And(n, Pow2(k)) != 0 <==> Bit(n, k)
  {
    if n == 0 {
      ZeroBits(k);
    } else if k == 0 {
      AndZero(n / 2);
    } else {
      assert Pow2(k) / 2 == Pow2(k - 1) && Pow2(k) % 2 == 0;
      AndTests(n / 2, k - 1);
    }
  }

  lemma AndZero(n: nat)
    ensures And(n, 0) == 0
  {
  }

  // n | (1 << k) sets bit k and no other.
  lemma {:induction false} OrSets(n: nat, k: nat, j: nat)
    ensures Bit(Or(n, Pow2(k)), j) <==> Bit(n, j) || j == k
    decreases k, j
  {
    var p := Pow2(k);
    assert Or(n, p) / 2 == Or(n / 2, p / 2);
    if k == 0 {
      OrZero(n / 2);
    } else {
      assert p / 2 == Pow2(k - 1) && p % 2 == 0;
      if j > 0 {
        OrSets(n / 2, k - 1, j - 1);
      }
    }
  }

  // n & ~(1 << k) on a w-bit word clears bit k and no other.
  lemma {:induction false} AndClears(n: nat, k: nat, w: nat, j: nat)
    requires k < w && n < Pow2(w)
    ensures Pow2(k) <= Pow2(w) - 1
    ensures Bit(And(n, Pow2(w) - 1 - Pow2(k)), j) <==> Bit(n, j) && j != k
    decreases k, j
  {
    Pow2Mono(k, w);
    var mask := Pow2(w) - 1 - Pow2(k);
    AndHalves(n, mask);
    if k == 0 {
      AndLowMask(n / 2, w - 1);
      DivModUnique(n / 2, Pow2(w - 1), 0, n / 2);
      assert mask / 2 == Pow2(w - 1) - 1 && mask % 2 == 0;
    } else {
      assert mask / 2 == Pow2(w - 1) - 1 - Pow2(k - 1) && mask % 2 == 1;
      if j > 0 {
        AndClears(n / 2, k - 1, w - 1, j - 1);
      }
    }
  }

  lemma AndHalves(a: nat, b: nat)
    ensures And(a, b) / 2 == And(a / 2, b / 2)
    ensures And(a, b) % 2 == if a % 2 == 1 && b % 2 == 1 then 1 else 0
  {
    if a == 0 || b == 0 {
      AndZeros(a / 2, b / 2);
    }
  }

  lemma AndZeros(a: nat, b: nat)
    requires a == 0 || b == 0
    ensures And(a, b) == 0
  {
  }

  // The set bits from k up to below limit, in ascending order.
  function BitList(n: nat, k: nat, limit: nat): seq<nat>
    decreases limit - k
  {
    if k >= limit then [] else (if Bit(n, k) then [k] else []) + BitList(n, k + 1, limit)
  }

  lemma {:induction false} BitListMembers(n: nat, k: nat, limit: nat)
    ensures forall j :: j in BitList(n, k, limit) <==> k <= j < limit && Bit(n, j)
    ensures forall i, j :: 0 <= i < j < |BitList(n, k, limit)| ==> BitList(n, k, limit)[i] < BitList(n, k, limit)[j]
    decreases limit - k
  {
    if k < limit {
      BitListMembers(n, k + 1, limit);
      var rest := BitList(n, k + 1, limit);
      forall i | 0 <= i < |rest|
        ensures k < rest[i]
      {
        assert rest[i] in rest;
      }
    }
  }

  lemma {:induction false} SameBits(a: nat, b: nat, k: nat, limit: nat)
    requires forall j :: k <= j < limit ==> (Bit(a, j) <==> Bit(b, j))
    ensures BitList(a, k, limit) == BitList(b, k, limit)
    decreases limit - k
  {
    if k < limit {
      SameBits(a, b, k + 1, limit);
    }
  }

  // Clearing the lowest set bit takes the head off the list.
  lemma {:induction false} ClearLowest(a: nat, b: nat, k: nat, limit: nat)
    requires BitList(a, k, limit) != []
    requires forall j :: k <= j < limit ==> (Bit(b, j) <==> Bit(a, j) && j != BitList(a, k, limit)[0])
    ensures BitList(b, k, limit) == BitList(a, k, limit)[1..]
    decreases limit - k
  {
    if Bit(a, k) {
      SameBits(a, b, k + 1, limit);
    } else {
      ClearLowest(a, b, k + 1, limit);
    }
  }

  lemma {:induction false} OrBound(a: nat, b: nat, w: nat)
    requires a < Pow2(w) && b < Pow2(w)
    ensures Or(a, b) < Pow2(w)
  {
    if w > 0 {
      OrBound(a / 2, b / 2, w - 1);
    }
  }

  lemma {:induction false} AndBound(a: nat, b: nat)
    ensures And(a, b) <= a
    decreases a
  {
    if a > 0 && b > 0 {
      AndBound(a / 2, b / 2);
    }
  }
}
