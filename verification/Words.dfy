/** Machine words as bounded numbers, with the bit operations defined bit by bit. */
module Words {

  const TWO_TO_THE_64: nat := 0x1_0000_0000_0000_0000

  type uint64 = n: nat | n < TWO_TO_THE_64
  type int64 = n: int | -0x8000_0000_0000_0000 <= n < 0x8000_0000_0000_0000
  type uint32 = n: nat | n < 0x1_0000_0000

  function Pow2(n: nat): (p: nat)
    ensures p > 0
  {
    if n == 0 then 1 else 2 * Pow2(n - 1)
  }

  /** Unsigned arithmetic keeps the result modulo 2^64. */
  function Wrap(x: int): uint64 {
    x % TWO_TO_THE_64
  }

  lemma NoWrap(x: int)
    requires 0 <= x < TWO_TO_THE_64
    ensures Wrap(x) == x
  {
  }

  function And(a: nat, b: nat): nat
    decreases a
  {
    if a == 0 then 0 else 2 * And(a / 2, b / 2) + (if a % 2 == 1 && b % 2 == 1 then 1 else 0)
  }

  function Or(a: nat, b: nat): nat
    decreases a + b
  {
    if a == 0 && b == 0 then 0 else 2 * Or(a / 2, b / 2) + (if a % 2 == 1 || b % 2 == 1 then 1 else 0)
  }

  function Not(a: uint64): uint64 {
    TWO_TO_THE_64 - 1 - a
  }

  function ShiftLeft(a: uint64, n: nat): uint64 {
    Wrap(a * Pow2(n))
  }

  function ShiftRight(a: nat, n: nat): nat {
    var d := Pow2(n);
    QuotientIsNat(a, d);
    a / d
  }

  lemma QuotientIsNat(a: nat, d: nat)
    requires d > 0
    ensures a / d >= 0
  {
  }

  lemma Pow2Step(n: nat)
    ensures Pow2(n) == if n == 0 then 1 else 2 * Pow2(n - 1)
  {
  }

  lemma Pow2Adds(m: nat, n: nat)
    ensures Pow2(m + n) == Pow2(m) * Pow2(n)
  {
    if n > 0 {
      Pow2Adds(m, n - 1);
      assert Pow2(m + n) == 2 * Pow2(m + n - 1);
    }
  }

  lemma Pow2Grows(m: nat, n: nat)
    requires m <= n
    ensures Pow2(m) <= Pow2(n)
  {
    if m < n {
      Pow2Grows(m, n - 1);
    }
  }

  lemma Pow2Of64()
    ensures Pow2(64) == TWO_TO_THE_64
  {
    assert Pow2(4) == 0x10;
    hide Pow2;
    Pow2Squared(4, 0x10);
    Pow2Squared(8, 0x100);
    Pow2Squared(16, 0x1_0000);
    Pow2Squared(32, 0x1_0000_0000);
  }

  lemma Pow2Squared(n: nat, p: nat)
    requires Pow2(n) == p
    ensures Pow2(n + n) == p * p
  {
    Pow2Adds(n, n);
  }

  lemma PowersAreWords(k: nat)
    requires k < 64
    ensures 2 * Pow2(k) <= TWO_TO_THE_64
  {
    Pow2Of64();
    Pow2Grows(k + 1, 64);
    assert Pow2(k + 1) == 2 * Pow2(k);
    hide Pow2;
  }

  /** The remainder by a doubled divisor, taken through the halves. */
  lemma HalfRemainder(v: nat, d: nat)
    requires d > 0
    ensures v % (2 * d) == 2 * (v / 2 % d) + v % 2
    ensures v / (2 * d) == v / 2 / d
  {
    var q, r := v / 2 / d, v / 2 % d;
    assert v == q * (2 * d) + (2 * r + v % 2) by {
      assert v / 2 == q * d + r;
    }
    DivisionIsUnique(v, 2 * d, q, 2 * r + v % 2);
  }

  lemma DivisionIsUnique(v: int, d: nat, q: int, r: nat)
    requires v == q * d + r && r < d
    ensures v / d == q && v % d == r
  {
    var k := v / d - q;
    assert k * d + v % d == r by {
      assert v == v / d * d + v % d;
      assert (v / d - q) * d == v / d * d - q * d;
    }
    Scaled(k, d);
  }

  lemma Scaled(k: int, d: nat)
    ensures k >= 1 ==> k * d >= d
    ensures k <= -1 ==> k * d + d <= 0
  {
    if k >= 1 {
      assert k * d == (k - 1) * d + d;
    } else if k <= -1 {
      assert k * d == (k + 1) * d - d;
    }
  }

  lemma AndAtMost(a: nat, b: nat)
    ensures And(a, b) <= a
    decreases a
  {
  }

  lemma AndDouble(v: nat, mask: nat)
    ensures And(v, 2 * mask) == 2 * And(v / 2, mask)
    ensures And(v, 2 * mask + 1) == 2 * And(v / 2, mask) + v % 2
  {
    assert (2 * mask + 1) / 2 == mask && (2 * mask + 1) % 2 == 1;
    assert (2 * mask) / 2 == mask && (2 * mask) % 2 == 0;
  }

  /** A mask of the high bits clears the low ones. */
  lemma {:induction false} AndHighMask(v: nat, n: nat, k: nat)
    requires k <= n && v < Pow2(n)
    ensures Pow2(k) <= Pow2(n) && And(v, Pow2(n) - Pow2(k)) == v - v % Pow2(k)
    decreases n
  {
    hide Pow2, And;
    Pow2Grows(k, n);
    Pow2Step(n);
    Pow2Step(k);
    if n == 0 {
      AndZero(v);
    } else if k == 0 {
      AndHighMask(v / 2, n - 1, 0);
      AndDouble(v, Pow2(n - 1) - 1);
      assert Pow2(n) - 1 == 2 * (Pow2(n - 1) - 1) + 1;
    } else {
      AndHighMask(v / 2, n - 1, k - 1);
      AndDouble(v, Pow2(n - 1) - Pow2(k - 1));
      assert Pow2(n) - Pow2(k) == 2 * (Pow2(n - 1) - Pow2(k - 1));
      HalfRemainder(v, Pow2(k - 1));
    }
  }

  /** A mask of the low bits is a remainder. */
  lemma {:induction false} AndLowMask(v: nat, k: nat)
    ensures And(v, Pow2(k) - 1) == v % Pow2(k)
    decreases k
  {
    hide Pow2, And;
    Pow2Step(k);
    if k == 0 {
      AndZero(v);
    } else {
      AndLowMask(v / 2, k - 1);
      AndDouble(v, Pow2(k - 1) - 1);
      HalfRemainder(v, Pow2(k - 1));
      assert Pow2(k) - 1 == 2 * (Pow2(k - 1) - 1) + 1;
    }
  }

  /** The top bit of a remainder by a doubled divisor is the lowest bit of the quotient. */
  lemma TopBit(v: nat, h: nat)
    requires h > 0
    ensures v / h % 2 == 1 <==> v % (2 * h) >= h
  {
    var q, r := v / (2 * h), v % (2 * h);
    assert v == q * (2 * h) + r;
    if r >= h {
      DivisionIsUnique(v, h, 2 * q + 1, r - h);
    } else {
      DivisionIsUnique(v, h, 2 * q, r);
    }
  }

  /** A mask of one bit tells whether that bit is set. */
  lemma {:induction false} AndOneBit(v: nat, k: nat)
    ensures And(v, Pow2(k)) != 0 <==> v / Pow2(k) % 2 == 1
    decreases k
  {
    hide Pow2, And;
    Pow2Step(k);
    if k == 0 {
      AndDouble(v, 0);
      AndZero(v / 2);
    } else {
      AndOneBit(v / 2, k - 1);
      AndDouble(v, Pow2(k - 1));
      HalfRemainder(v, Pow2(k - 1));
    }
  }

  lemma AndZero(v: nat)
    ensures And(v, 0) == 0
    decreases v
  {
  }

  /** Fields that do not overlap are put together by addition. */
  lemma {:induction false} OrDisjoint(h: nat, l: nat, k: nat)
    requires l < Pow2(k)
    ensures Or(h * Pow2(k), l) == h * Pow2(k) + l
    decreases k
  {
    hide Pow2, Or;
    Pow2Step(k);
    if k == 0 {
      OrZero(h);
    } else {
      OrDisjoint(h, l / 2, k - 1);
      DoubledProduct(h, Pow2(k - 1));
      OrDouble(2 * (h * Pow2(k - 1)), l / 2);
    }
  }

  /** The same with the power given as a number. */
  lemma OrAt(h: nat, l: nat, k: nat, p: nat)
    requires p == Pow2(k) && l < p
    ensures Or(h * p, l) == h * p + l
  {
    OrDisjoint(h, l, k);
  }

  lemma DoubledProduct(h: nat, p: nat)
    ensures h * (2 * p) == 2 * (h * p)
  {
  }

  lemma {:induction false} OrFits(a: nat, b: nat, n: nat)
    requires a < Pow2(n) && b < Pow2(n)
    ensures Or(a, b) < Pow2(n)
    decreases n
  {
    if n > 0 {
      OrFits(a / 2, b / 2, n - 1);
    }
  }

  lemma OrIsWord(a: uint64, b: uint64)
    ensures Or(a, b) < TWO_TO_THE_64
  {
    Pow2Of64();
    OrFits(a, b, 64);
  }

  lemma OrDouble(v: nat, mask: nat)
    ensures Or(v, 2 * mask) == 2 * Or(v / 2, mask) + v % 2
    ensures Or(v, 2 * mask + 1) == 2 * Or(v / 2, mask) + 1
  {
    assert (2 * mask + 1) / 2 == mask && (2 * mask + 1) % 2 == 1;
    assert (2 * mask) / 2 == mask && (2 * mask) % 2 == 0;
  }

  /** Together the two operations keep every bit. */
  lemma {:induction false} OrAndAnd(a: nat, b: nat)
    ensures Or(a, b) + And(a, b) == a + b
    decreases a + b
  {
    if a > 0 || b > 0 {
      OrAndAnd(a / 2, b / 2);
      if a == 0 {
        OrAndAnd(0, b / 2);
      }
    }
  }

  /** A mask of the high bits sets them and keeps the low ones. */
  lemma OrHighMask(v: nat, n: nat, k: nat)
    requires k <= n && v < Pow2(n)
    ensures Pow2(k) <= Pow2(n) && Or(v, Pow2(n) - Pow2(k)) == Pow2(n) - Pow2(k) + v % Pow2(k)
  {
    AndHighMask(v, n, k);
    OrAndAnd(v, Pow2(n) - Pow2(k));
  }

  lemma OrZero(h: nat)
    ensures Or(h, 0) == h
    decreases h
  {
  }
}
