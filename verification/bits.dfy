/** Bitwise operators of the source's unsigned integers, on natural numbers, bit by bit. */
module Bits {
  import opened Sums

  function Pow2(k: nat): (p: nat)
    ensures 0 < p
  {
    if k == 0 then 1 else 2 * Pow2(k - 1)
  }

  function Bit(x: nat, k: nat): bool {
    if k == 0 then x % 2 == 1 else Bit(x / 2, k - 1)
  }

  function And(a: nat, b: nat): nat {
    if a == 0 then 0 else 2 * And(a / 2, b / 2) + (if a % 2 == 1 && b % 2 == 1 then 1 else 0)
  }

  function Or(a: nat, b: nat): nat
    decreases a + b
  {
    if a + b == 0 then 0 else 2 * Or(a / 2, b / 2) + (if a % 2 == 1 || b % 2 == 1 then 1 else 0)
  }

  /** a &^ b */
  function AndNot(a: nat, b: nat): nat {
    if a == 0 then 0 else 2 * AndNot(a / 2, b / 2) + (if a % 2 == 1 && b % 2 == 0 then 1 else 0)
  }

  function Shl(a: nat, k: nat): nat {
    if k == 0 then a else 2 * Shl(a, k - 1)
  }

  function Shr(a: nat, k: nat): nat {
    if k == 0 then a else Shr(a / 2, k - 1)
  }

  function Mask(k: nat): nat {
    Pow2(k) - 1
  }

  lemma {:induction false} ShlProduct(a: nat, k: nat)
    ensures Shl(a, k) == a * Pow2(k)
  {
    if k != 0 {
      ShlProduct(a, k - 1);
      assert a * (2 * Pow2(k - 1)) == 2 * (a * Pow2(k - 1));
    }
  }

  lemma {:induction false} ShrQuotient(a: nat, k: nat)
    ensures Shr(a, k) == a / Pow2(k)
  {
    if k != 0 {
      ShrQuotient(a / 2, k - 1);
      DoubleDivide(a, Pow2(k - 1));
    }
  }

  lemma {:induction false} Pow2Sum(j: nat, k: nat)
    ensures Pow2(j + k) == Pow2(j) * Pow2(k)
  {
    if j != 0 {
      Pow2Sum(j - 1, k);
      assert 2 * (Pow2(j - 1) * Pow2(k)) == (2 * Pow2(j - 1)) * Pow2(k);
    }
  }

  lemma DoubleDivide(x: nat, p: nat)
    requires 0 < p
    ensures x / (2 * p) == x / 2 / p
    ensures x % (2 * p) == 2 * (x / 2 % p) + x % 2
  {
    var h := x / 2;
    var q, r := h / p, h % p;
    assert h == p * q + r;
    assert x == 2 * p * q + (2 * r + x % 2);
    DivideUnique(x, 2 * p, q, 2 * r + x % 2);
  }

  lemma DivideUnique(x: int, d: int, q: int, r: int)
    requires 0 <= r < d && x == d * q + r
    ensures x / d == q && x % d == r
  {
    var q', r' := x / d, x % d;
    assert x == d * q' + r';
    assert d * (q + 1) == d * q + d && d * (q' + 1) == d * q' + d;
    CancelFactor(d, q', q);
    CancelFactor(d, q, q');
  }

  lemma ModMod(a: int, k: int, m: int)
    requires 0 < k && 0 < m
    ensures 0 < k * m && a % (k * m) % m == a % m
  {
    MulMonotone(m, 1, k);
    assert m * k == k * m;
    var q, r := a / (k * m), a % (k * m);
    var q', r' := r / m, r % m;
    assert a == (k * m) * q + r && r == m * q' + r';
    assert (k * m) * q == m * (k * q);
    assert m * (k * q + q') == m * (k * q) + m * q';
    DivideUnique(a, m, k * q + q', r');
  }

  lemma SameMod(a: int, b: int, m: int)
    requires 0 < m
    ensures a % m == b % m <==> (a - b) % m == 0
  {
    var p, r, q, t := a / m, a % m, b / m, b % m;
    assert a == m * p + r && b == m * q + t;
    assert m * p - m * q == m * (p - q);
    if r == t {
      DivideUnique(a - b, m, p - q, 0);
    }
    if (a - b) % m == 0 {
      var d := (a - b) / m;
      assert a - b == m * d;
      assert m * (q + d) == m * q + m * d;
      DivideUnique(a, m, q + d, t);
    }
  }

  /** Masking the low k bits is the remainder modulo 2^k. */
  lemma {:induction false} AndMask(x: nat, k: nat)
    ensures And(x, Mask(k)) == x % Pow2(k)
  {
    if x == 0 {
      DivideUnique(0, Pow2(k), 0, 0);
    } else if k == 0 {
      AndZero(x);
    } else {
      AndMask(x / 2, k - 1);
      DoubleDivide(x, Pow2(k - 1));
      assert Mask(k) == 2 * Mask(k - 1) + 1;
    }
  }

  lemma {:induction false} AndZero(x: nat)
    ensures And(x, 0) == 0
  {
    if x != 0 {
      AndZero(x / 2);
    }
  }

  lemma {:induction false} OrZero(x: nat)
    ensures Or(x, 0) == x == Or(0, x)
  {
    if x != 0 {
      OrZero(x / 2);
    }
  }

  /** Fields that do not overlap are or-ed together by addition. */
  lemma {:induction false} OrDisjoint(a: nat, b: nat, k: nat)
    requires b < Pow2(k)
    ensures Or(Shl(a, k), b) == Shl(a, k) + b
  {
    if k == 0 {
      OrZero(a);
    } else {
      OrDisjoint(a, b / 2, k - 1);
    }
  }

  lemma {:induction false} ZeroBits(k: nat)
    ensures !Bit(0, k)
  {
    if k != 0 {
      ZeroBits(k - 1);
    }
  }

  lemma {:induction false} OrBit(a: nat, b: nat, k: nat)
    ensures Bit(Or(a, b), k) == (Bit(a, k) || Bit(b, k))
  {
    if a + b == 0 {
      ZeroBits(k);
    } else if k != 0 {
      OrBit(a / 2, b / 2, k - 1);
    }
  }

  lemma {:induction false} AndNotBit(a: nat, b: nat, k: nat)
    ensures Bit(AndNot(a, b), k) == (Bit(a, k) && !Bit(b, k))
  {
    if a == 0 {
      ZeroBits(k);
    } else if k != 0 {
      AndNotBit(a / 2, b / 2, k - 1);
    }
  }

  /** 1 << j has bit j and no other. */
  lemma {:induction false} OneBit(j: nat, k: nat)
    ensures Bit(Shl(1, j), k) == (j == k)
  {
    if j == 0 {
      if k != 0 {
        ZeroBits(k - 1);
      }
    } else if k != 0 {
      OneBit(j - 1, k - 1);
    }
  }

  /** (x >> k) & 1 reads bit k. */
  lemma {:induction false} BitByShift(x: nat, k: nat)
    ensures And(Shr(x, k), 1) == (if Bit(x, k) then 1 else 0)
  {
    if k == 0 {
      AndMask(x, 1);
      assert Mask(1) == 1 && Pow2(1) == 2;
    } else {
      BitByShift(x / 2, k - 1);
    }
  }

  /** Setting or clearing a bit below 2^n keeps a word below 2^n. */
  lemma {:induction false} OrBelow(a: nat, b: nat, n: nat)
    requires a < Pow2(n) && b < Pow2(n)
    ensures Or(a, b) < Pow2(n)
  {
    if n != 0 {
      OrBelow(a / 2, b / 2, n - 1);
    }
  }

  lemma {:induction false} AndNotBelow(a: nat, b: nat)
    ensures AndNot(a, b) <= a
  {
    if a != 0 {
      AndNotBelow(a / 2, b / 2);
    }
  }

  lemma {:induction false} Pow2Monotone(j: nat, k: nat)
    requires j <= k
    ensures Pow2(j) <= Pow2(k)
    ensures j < k ==> Pow2(j) < Pow2(k)
  {
    if j < k {
      Pow2Monotone(j, k - 1);
    }
  }
}
