/** Powers of two and bit operations on natural numbers, by binary digits. */
module Bits {

  function Pow2(n: nat): (p: nat)
    ensures p > 0
  {
    if n == 0 then 1 else 2 * Pow2(n - 1)
  }

  lemma {:induction false} Pow2Add(m: nat, n: nat)
    ensures Pow2(m + n) == Pow2(m) * Pow2(n)
  {
    if m > 0 {
      Pow2Add(m - 1, n);
      assert Pow2(m + n) == 2 * Pow2(m - 1 + n);
    }
  }

  lemma {:induction false} Pow2Monotone(m: nat, n: nat)
    requires m <= n
    ensures Pow2(m) <= Pow2(n)
  {
    if m < n {
      Pow2Monotone(m, n - 1);
    }
  }

  lemma Pow2Small()
    ensures Pow2(0) == 1 && Pow2(1) == 2 && Pow2(2) == 4 && Pow2(3) == 8 && Pow2(4) == 16
    ensures Pow2(5) == 32 && Pow2(6) == 64 && Pow2(7) == 128 && Pow2(8) == 256
  {
    assert Pow2(4) == 16;
    assert Pow2(6) == 64;
  }

  /** Binary digit `i`, counted from the least significant one. */
  function Digit(x: nat, i: nat): (d: nat)
    ensures d < 2
  {
    if i == 0 then x % 2 else Digit(x / 2, i - 1)
  }

  lemma {:induction false} DigitsDetermine(a: nat, b: nat, n: nat)
    requires a < Pow2(n) && b < Pow2(n)
    requires forall i: nat | i < n :: Digit(a, i) == Digit(b, i)
    ensures a == b
  {
    if n > 0 {
      forall i: nat | i < n - 1
        ensures Digit(a / 2, i) == Digit(b / 2, i)
      {
        assert Digit(a, i + 1) == Digit(b, i + 1);
      }
      DigitsDetermine(a / 2, b / 2, n - 1);
      assert Digit(a, 0) == Digit(b, 0);
    }
  }

  // ----- Bit operations on the `n` lowest digits -----

  function AndBits(a: nat, b: nat, n: nat): nat {
    if n == 0 then 0
    else AndBits(a / 2, b / 2, n - 1) * 2 + if a % 2 == 1 && b % 2 == 1 then 1 else 0
  }

  function OrBits(a: nat, b: nat, n: nat): nat {
    if n == 0 then 0
    else OrBits(a / 2, b / 2, n - 1) * 2 + if a % 2 == 1 || b % 2 == 1 then 1 else 0
  }

  function XorBits(a: nat, b: nat, n: nat): nat {
    if n == 0 then 0
    else XorBits(a / 2, b / 2, n - 1) * 2 + (a + b) % 2
  }

  lemma {:induction false} BitsBound(a: nat, b: nat, n: nat)
    ensures AndBits(a, b, n) < Pow2(n) && OrBits(a, b, n) < Pow2(n) && XorBits(a, b, n) < Pow2(n)
  {
    if n > 0 {
      BitsBound(a / 2, b / 2, n - 1);
    }
  }

  lemma DigitStep(x: nat, last: nat, i: nat)
    requires last < 2
    ensures Digit(2 * x + last, i) == if i == 0 then last else Digit(x, i - 1)
  {
  }

  lemma {:induction false} AndDigit(a: nat, b: nat, n: nat, i: nat)
    requires i < n
    ensures Digit(AndBits(a, b, n), i) == 1 <==> Digit(a, i) == 1 && Digit(b, i) == 1
  {
    if i > 0 {
      AndDigit(a / 2, b / 2, n - 1, i - 1);
    }
    DigitStep(AndBits(a / 2, b / 2, n - 1), if a % 2 == 1 && b % 2 == 1 then 1 else 0, i);
  }

  lemma {:induction false} OrDigit(a: nat, b: nat, n: nat, i: nat)
    requires i < n
    ensures Digit(OrBits(a, b, n), i) == 1 <==> Digit(a, i) == 1 || Digit(b, i) == 1
  {
    if i > 0 {
      OrDigit(a / 2, b / 2, n - 1, i - 1);
    }
    DigitStep(OrBits(a / 2, b / 2, n - 1), if a % 2 == 1 || b % 2 == 1 then 1 else 0, i);
  }

  lemma {:induction false} XorDigit(a: nat, b: nat, n: nat, i: nat)
    requires i < n
    ensures Digit(XorBits(a, b, n), i) == 1 <==> Digit(a, i) != Digit(b, i)
  {
    if i > 0 {
      XorDigit(a / 2, b / 2, n - 1, i - 1);
    }
    DigitStep(XorBits(a / 2, b / 2, n - 1), (a + b) % 2, i);
  }

  /** The operations act digit by digit. */
  lemma BitsDigit(a: nat, b: nat, n: nat, i: nat)
    requires i < n
    ensures Digit(AndBits(a, b, n), i) == 1 <==> Digit(a, i) == 1 && Digit(b, i) == 1
    ensures Digit(OrBits(a, b, n), i) == 1 <==> Digit(a, i) == 1 || Digit(b, i) == 1
    ensures Digit(XorBits(a, b, n), i) == 1 <==> Digit(a, i) != Digit(b, i)
  {
    AndDigit(a, b, n, i);
    OrDigit(a, b, n, i);
    XorDigit(a, b, n, i);
  }

  lemma {:induction false} ZeroDigits(i: nat)
    ensures Digit(0, i) == 0
  {
    if i > 0 {
      ZeroDigits(i - 1);
    }
  }

  /** Two numbers have a common digit exactly when their conjunction is not zero. */
  lemma CommonDigit(a: nat, b: nat, n: nat)
    ensures AndBits(a, b, n) != 0 <==> exists i: nat :: i < n && Digit(a, i) == 1 && Digit(b, i) == 1
  {
    var both := AndBits(a, b, n);
    BitsBound(a, b, n);
    if i: nat :| i < n && Digit(a, i) == 1 && Digit(b, i) == 1 {
      BitsDigit(a, b, n, i);
      ZeroDigits(i);
    } else {
      forall i: nat | i < n
        ensures Digit(both, i) == Digit(0, i)
      {
        BitsDigit(a, b, n, i);
        ZeroDigits(i);
      }
      DigitsDetermine(both, 0, n);
    }
  }

  // ----- Products and quotients -----

  lemma MulAssoc(a: int, b: int, c: int)
    ensures a * (b * c) == (a * b) * c
  {
  }

  lemma DistributeLeft(a: int, b: int, m: int)
    ensures (a + b) * m == a * m + b * m
  {
  }

  lemma MulStep(a: int, b: int, m: nat)
    requires a > b
    ensures a * m >= b * m + m
  {
    DistributeLeft(b, a - b, m);
    DistributeLeft(a - b - 1, 1, m);
    assert (a - b - 1) * m >= 0;
  }

  lemma ModUnique(x: nat, m: nat, q: nat, r: nat)
    requires m > 0 && r < m && x == q * m + r
    ensures x / m == q && x % m == r
  {
    var d := x / m;
    assert x == d * m + x % m;
    if d > q {
      MulStep(d, q, m);
    } else if q > d {
      MulStep(q, d, m);
    }
  }

  // ----- Shifts -----

  /** Doubling `k` times within `n` digits. */
  function ShiftLeft(a: nat, k: nat, n: nat): nat {
    if k == 0 then a % Pow2(n) else 2 * ShiftLeft(a, k - 1, n) % Pow2(n)
  }

  /** Halving `k` times. */
  function ShiftRight(a: nat, k: nat): nat {
    if k == 0 then a else ShiftRight(a, k - 1) / 2
  }

  lemma {:induction false} ShiftLeftIs(a: nat, k: nat, n: nat)
    ensures ShiftLeft(a, k, n) == a * Pow2(k) % Pow2(n)
  {
    if k > 0 {
      ShiftLeftIs(a, k - 1, n);
      DoubleMod(a * Pow2(k - 1), Pow2(n));
      assert 2 * (a * Pow2(k - 1)) == a * Pow2(k);
    }
  }

  lemma DoubleMod(x: nat, m: nat)
    requires m > 0
    ensures 2 * (x % m) % m == 2 * x % m
  {
    var q, r := x / m, x % m;
    assert x == q * m + r;
    if 2 * r < m {
      assert 2 * x == (2 * q) * m + 2 * r;
      ModUnique(2 * x, m, 2 * q, 2 * r);
      ModUnique(2 * r, m, 0, 2 * r);
    } else {
      assert 2 * x == (2 * q + 1) * m + (2 * r - m);
      ModUnique(2 * x, m, 2 * q + 1, 2 * r - m);
      ModUnique(2 * r, m, 1, 2 * r - m);
    }
  }

  lemma {:induction false} ShiftRightIs(a: nat, k: nat)
    ensures ShiftRight(a, k) == a / Pow2(k)
    ensures ShiftRight(a, k) <= a
  {
    if k > 0 {
      ShiftRightIs(a, k - 1);
      HalveQuotient(a, Pow2(k - 1));
    }
  }

  lemma HalveQuotient(a: nat, m: nat)
    requires m > 0
    ensures a / m / 2 == a / (2 * m)
  {
    var q, r := a / m, a % m;
    var h, t := q / 2, q % 2;
    assert a == q * m + r && q == 2 * h + t;
    DistributeLeft(2 * h, t, m);
    MulAssoc(h, 2, m);
    assert t == 0 || t == 1;
    ModUnique(a, 2 * m, h, t * m + r);
  }

  lemma Pow2Of32()
    ensures Pow2(32) == 0x1_0000_0000
  {
    Pow2Small();
    Pow2Add(8, 8);
    Pow2Add(16, 16);
  }
}
