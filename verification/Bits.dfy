/** The C bit operators on unsigned words, as functions on natural numbers. */
module Bits {
  function Pow2(k: nat): (p: nat)
    ensures p > 0
  {
    if k == 0 then 1 else 2 * Pow2(k - 1)
  }

  lemma {:induction false} Pow2Splits(r: nat, k: nat)
    ensures Pow2(r) * Pow2(k) == Pow2(r + k)
  {
    if r > 0 {
      Pow2Splits(r - 1, k);
      assert 2 * Pow2(r - 1) * Pow2(k) == 2 * (Pow2(r - 1) * Pow2(k));
    }
  }

  function Xor(a: nat, b: nat): nat {
    if a == 0 && b == 0 then 0 else 2 * Xor(a / 2, b / 2) + (a + b) % 2
  }

  function And(a: nat, b: nat): nat {
    if a == 0 || b == 0 then 0 else 2 * And(a / 2, b / 2) + (a % 2) * (b % 2)
  }

  function Or(a: nat, b: nat): nat {
    if a == 0 && b == 0 then 0 else 2 * Or(a / 2, b / 2) + (if a % 2 == 0 && b % 2 == 0 then 0 else 1)
  }

  /** Bit `i` of `a`. */
  predicate Bit(a: nat, i: nat) {
    if i == 0 then a % 2 == 1 else Bit(a / 2, i - 1)
  }

  // ---------- exclusive or ----------

  lemma {:induction false} XorBounded(a: nat, b: nat, k: nat)
    requires a < Pow2(k) && b < Pow2(k)
    ensures Xor(a, b) < Pow2(k)
  {
    if k > 0 { XorBounded(a / 2, b / 2, k - 1); }
  }

  lemma {:induction false} XorSelf(a: nat)
    ensures Xor(a, a) == 0 && Xor(a, 0) == a
  {
    if a > 0 { XorSelf(a / 2); }
  }

  lemma {:induction false} XorCommutes(a: nat, b: nat)
    ensures Xor(a, b) == Xor(b, a)
  {
    if a > 0 || b > 0 { XorCommutes(a / 2, b / 2); }
  }

  lemma {:induction false} XorAssociates(a: nat, b: nat, c: nat)
    ensures Xor(Xor(a, b), c) == Xor(a, Xor(b, c))
  {
    if a > 0 || b > 0 || c > 0 {
      XorAssociates(a / 2, b / 2, c / 2);
      XorStep(a, b, c);
    }
  }

  lemma XorStep(a: nat, b: nat, c: nat)
    requires Xor(Xor(a / 2, b / 2), c / 2) == Xor(a / 2, Xor(b / 2, c / 2))
    ensures Xor(Xor(a, b), c) == Xor(a, Xor(b, c))
  {
    hide Xor;
    var ab, bc := Xor(a, b), Xor(b, c);
    XorHalves(a, b); XorHalves(b, c); XorHalves(ab, c); XorHalves(a, bc);
    Parity(a, b, c, ab, bc);
  }

  lemma Parity(a: nat, b: nat, c: nat, ab: nat, bc: nat)
    requires ab % 2 == (a + b) % 2 && bc % 2 == (b + c) % 2
    ensures (ab + c) % 2 == (a + bc) % 2
  {
  }

  lemma XorHalves(a: nat, b: nat)
    ensures Xor(a, b) / 2 == Xor(a / 2, b / 2) && Xor(a, b) % 2 == (a + b) % 2
    ensures Xor(a, b) == 2 * Xor(a / 2, b / 2) + (a + b) % 2
  {
  }

  lemma XorUndone(a: nat, m: nat)
    ensures Xor(Xor(a, m), m) == a
  {
    XorAssociates(a, m, m);
    XorSelf(m);
    XorSelf(a);
  }

  lemma XorCancels(a: nat, b: nat, m: nat)
    requires Xor(a, m) == Xor(b, m)
    ensures a == b
  {
    XorUndone(a, m);
    XorUndone(b, m);
  }

  /** a >> k. */
  function Shr(a: nat, k: nat): nat {
    if k == 0 then a else Shr(a / 2, k - 1)
  }

  lemma {:induction false} ShrDivides(a: nat, k: nat)
    ensures Shr(a, k) == a / Pow2(k)
  {
    if k > 0 {
      ShrDivides(a / 2, k - 1);
      HalfThen(a, Pow2(k - 1));
    }
  }

  lemma {:induction false} ShrTwice(a: nat, i: nat, j: nat)
    ensures Shr(Shr(a, i), j) == Shr(a, i + j)
  {
    if i > 0 { ShrTwice(a / 2, i - 1, j); }
  }

  lemma {:induction false} ShrSmall(a: nat, k: nat)
    requires a < Pow2(k)
    ensures Shr(a, k) == 0
  {
    if k > 0 { ShrSmall(a / 2, k - 1); }
  }

  lemma {:induction false} ShrBounded(a: nat, k: nat)
    ensures Shr(a, k) <= a
  {
    if k > 0 { ShrBounded(a / 2, k - 1); }
  }

  lemma HalfThen(x: nat, p: nat)
    requires p > 0
    ensures x / (2 * p) == x / 2 / p && x % (2 * p) == 2 * (x / 2 % p) + x % 2
  {
    var q, r := x / 2 / p, x / 2 % p;
    assert x == 2 * (q * p + r) + x % 2;
    assert x == q * (2 * p) + (2 * r + x % 2);
    DivUnique(x, 2 * p, q, 2 * r + x % 2);
  }

  lemma DivUnique(x: nat, d: nat, q: nat, r: nat)
    requires r < d && x == q * d + r
    ensures x / d == q && x % d == r
  {
    var e := x / d - q;
    assert x == x / d * d + x % d;
    assert e * d == r - x % d;
    if e > 0 { AtLeastOnce(e, d); } else if e < 0 { AtLeastOnce(-e, d); }
  }

  lemma DivMod(x: nat, m: nat)
    requires m > 0
    ensures x == x / m * m + x % m
  {
  }

  lemma ModBelow(x: nat, m: nat)
    requires m > 0
    ensures 0 <= x % m < m && x / m >= 0
  {
  }

  lemma AtLeastOnce(e: int, d: nat)
    requires e >= 1
    ensures e * d >= d
  {
    assert (e - 1) * d >= 0;
  }

  /** A right shift distributes over exclusive or. */
  lemma {:induction false} XorShifted(a: nat, b: nat, k: nat)
    ensures Shr(Xor(a, b), k) == Xor(Shr(a, k), Shr(b, k))
  {
    hide Xor;
    if k > 0 {
      XorHalves(a, b);
      XorShifted(a / 2, b / 2, k - 1);
    }
  }

  // ---------- or, and ----------

  /** On words without a common bit the three operators add. */
  lemma {:induction false} DisjointBitsAdd(a: nat, b: nat, k: nat)
    requires b < Pow2(k)
    ensures Xor(a * Pow2(k), b) == a * Pow2(k) + b && Or(a * Pow2(k), b) == a * Pow2(k) + b
  {
    hide Xor, Or;
    if k == 0 {
      XorSelf(a);
      OrZero(a);
    } else {
      DisjointBitsAdd(a, b / 2, k - 1);
      Doubled(a, Pow2(k - 1));
      DoubledFirst(a * Pow2(k), b, a * Pow2(k - 1));
    }
  }

  lemma Doubled(a: nat, p: nat)
    ensures a * (2 * p) == 2 * (a * p)
  {
  }

  lemma DoubledFirst(d: nat, b: nat, p: nat)
    requires d == 2 * p && Xor(p, b / 2) == p + b / 2 && Or(p, b / 2) == p + b / 2
    ensures Xor(d, b) == d + b && Or(d, b) == d + b
  {
    hide Xor, Or;
    assert d / 2 == p && d % 2 == 0 && (d + b) % 2 == b % 2;
    XorHalves(d, b);
    OrHalves(d, b);
  }

  lemma OrHalves(a: nat, b: nat)
    ensures Or(a, b) == 2 * Or(a / 2, b / 2) + (if a % 2 == 0 && b % 2 == 0 then 0 else 1)
  {
  }

  lemma {:induction false} OrZero(a: nat)
    ensures Or(a, 0) == a
  {
    if a > 0 { OrZero(a / 2); }
  }

  lemma {:induction false} OrBounded(a: nat, b: nat, k: nat)
    requires a < Pow2(k) && b < Pow2(k)
    ensures Or(a, b) < Pow2(k)
  {
    if k > 0 { OrBounded(a / 2, b / 2, k - 1); }
  }

  lemma OrOne(a: nat)
    ensures Or(a, 1) == a - a % 2 + 1
  {
    OrZero(a / 2);
  }

  lemma {:induction false} BitOfZero(i: nat)
    ensures !Bit(0, i)
  {
    if i > 0 { BitOfZero(i - 1); }
  }

  /** Or sets exactly the bits of its operands. */
  lemma {:induction false} BitOfOr(a: nat, b: nat, i: nat)
    ensures Bit(Or(a, b), i) <==> Bit(a, i) || Bit(b, i)
  {
    if a == 0 && b == 0 {
      BitOfZero(i);
    } else if i > 0 {
      BitOfOr(a / 2, b / 2, i - 1);
    }
  }

  lemma {:induction false} BitOfPow2(k: nat, i: nat)
    ensures Bit(Pow2(k), i) <==> i == k
  {
    if k == 0 {
      if i > 0 { BitOfZero(i - 1); }
    } else if i > 0 {
      BitOfPow2(k - 1, i - 1);
    }
  }

  /** `a & (1 << i)` is non-zero exactly if bit `i` is set. */
  lemma {:induction false} AndPow2TestsBit(a: nat, i: nat)
    ensures And(a, Pow2(i)) != 0 <==> Bit(a, i)
  {
    if a == 0 {
      BitOfZero(i);
    } else if i > 0 {
      AndPow2TestsBit(a / 2, i - 1);
    }
  }

  lemma {:induction false} AndBelow(a: nat, b: nat)
    ensures And(a, b) <= b
  {
    if a > 0 && b > 0 { AndBelow(a / 2, b / 2); }
  }

  /** Masking with 2^k - 1 is the remainder modulo 2^k. */
  lemma {:induction false} MaskIsRemainder(a: nat, k: nat)
    ensures And(a, Pow2(k) - 1) == a % Pow2(k)
  {
    if k == 0 {
    } else if a > 0 {
      hide And;
      MaskIsRemainder(a / 2, k - 1);
      HalfThen(a, Pow2(k - 1));
      AndOdd(a, Pow2(k - 1) - 1);
    } else {
      RemainderOfZero(Pow2(k));
    }
  }

  lemma RemainderOfZero(p: nat)
    requires p > 0
    ensures 0 % p == 0
  {
  }

  lemma AndOdd(a: nat, m: nat)
    ensures And(a, 2 * m + 1) == 2 * And(a / 2, m) + a % 2
  {
    assert (2 * m + 1) / 2 == m && (2 * m + 1) % 2 == 1;
    AndHalves(a, 2 * m + 1);
  }

  lemma AndHalves(a: nat, b: nat)
    requires b > 0
    ensures And(a, b) == 2 * And(a / 2, b / 2) + (a % 2) * (b % 2)
  {
  }
}
