/** Bitwise operations on natural numbers, digit by digit, with the facts that
    tie masks, shifts and sign bits to ordinary arithmetic. */
module Bits {

  function Pow2(n: nat): (p: nat)
    ensures p > 0
  {
    if n == 0 then 1 else 2 * Pow2(n - 1)
  }

  function And(a: nat, b: nat): nat {
    if a == 0 then 0
    else 2 * And(a / 2, b / 2) + (if a % 2 == 1 && b % 2 == 1 then 1 else 0)
  }

  function Or(a: nat, b: nat): nat
    decreases a + b
  {
    if a == 0 && b == 0 then 0
    else 2 * Or(a / 2, b / 2) + (if a % 2 == 1 || b % 2 == 1 then 1 else 0)
  }

  function Xor(a: nat, b: nat): nat
    decreases a + b
  {
    if a == 0 && b == 0 then 0
    else 2 * Xor(a / 2, b / 2) + (if a % 2 != b % 2 then 1 else 0)
  }

  /** Binary digit `i`, the lowest being digit zero. */
  predicate Digit(a: nat, i: nat) {
    if i == 0 then a % 2 == 1 else Digit(a / 2, i - 1)
  }

  lemma {:induction false} ZeroDigit(i: nat)
    ensures !Digit(0, i)
  {
    if i > 0 { ZeroDigit(i - 1); }
  }

  /** The operations work digit by digit, wherever both operands have theirs. */
  lemma {:induction false} DigitByDigit(a: nat, b: nat, i: nat)
    ensures Digit(And(a, b), i) <==> Digit(a, i) && Digit(b, i)
    ensures Digit(Or(a, b), i) <==> Digit(a, i) || Digit(b, i)
    ensures Digit(Xor(a, b), i) <==> Digit(a, i) != Digit(b, i)
    decreases i
  {
    ZeroDigit(i);
    if i > 0 {
      DigitByDigit(a / 2, b / 2, i - 1);
      ZeroDigit(i - 1);
    }
  }

  /** Equal digits make equal values. */
  lemma {:induction false} DigitsTell(a: nat, b: nat)
    requires forall i: nat :: Digit(a, i) == Digit(b, i)
    ensures a == b
    decreases a + b
  {
    assert Digit(a, 0) == Digit(b, 0);
    if a > 0 || b > 0 {
      forall i: nat ensures Digit(a / 2, i) == Digit(b / 2, i) {
        assert Digit(a, i + 1) == Digit(b, i + 1);
      }
      DigitsTell(a / 2, b / 2);
    }
  }

  // ----- Powers, quotients and remainders -----

  lemma {:induction false} Pow2Add(m: nat, n: nat)
    ensures Pow2(m + n) == Pow2(m) * Pow2(n)
  {
    if m > 0 {
      Pow2Add(m - 1, n);
      assert Pow2(m + n) == 2 * Pow2(m - 1 + n);
    }
  }

  lemma {:induction false} Pow2Grows(m: nat, n: nat)
    requires m <= n
    ensures Pow2(m) <= Pow2(n)
  {
    if m < n { Pow2Grows(m, n - 1); }
  }

  lemma {:induction false} MulGrows(k: nat, d: nat)
    requires k > 0
    ensures k * d >= d
  {
    if k > 1 {
      MulGrows(k - 1, d);
      assert k * d == (k - 1) * d + d;
    }
  }

  /** Quotient and remainder are the only pair of their kind. */
  lemma DivModUnique(x: int, d: nat, q: int, r: int)
    requires d > 0 && x == q * d + r && 0 <= r < d
    ensures x / d == q && x % d == r
  {
    var q', r' := x / d, x % d;
    assert x == q' * d + r';
    if q > q' {
      assert (q - q') * d == q * d - q' * d;
      MulGrows(q - q', d);
    } else if q < q' {
      assert (q' - q) * d == q' * d - q * d;
      MulGrows(q' - q, d);
    }
  }

  lemma DivShrinks(x: nat, d: nat)
    requires d > 0
    ensures 0 <= x / d <= x
  {
    var q, r := x / d, x % d;
    assert x == q * d + r;
    if q > 0 {
      MulGrows(d, q);
    }
  }

  lemma {:induction false} MulMono(x: nat, y: nat, p: nat)
    requires x <= y
    ensures x * p <= y * p
  {
    if x < y {
      MulMono(x, y - 1, p);
      assert y * p == (y - 1) * p + p;
    }
  }

  lemma DivLess(a: nat, p: nat, q: nat)
    requires p > 0 && a < q * p
    ensures 0 <= a / p < q
  {
    var d, r := a / p, a % p;
    assert a == d * p + r;
    if d >= q { MulMono(q, d, p); }
  }

  lemma DivSub(a: int, p: nat, q: nat)
    requires p > 0
    ensures (a - q * p) / p == a / p - q
  {
    var d, r := a / p, a % p;
    assert a == d * p + r;
    assert (d - q) * p == d * p - q * p;
    DivModUnique(a - q * p, p, d - q, r);
  }

  lemma ModNegative(x: int, n: nat)
    requires x < 0 <= x + n
    ensures x % n == x + n
  {
    DivModUnique(x, n, -1, x + n);
  }

  lemma MulAssoc(a: nat, b: nat, c: nat)
    ensures a * (b * c) == (a * b) * c
  {
  }

  lemma ModMultiple(c: nat, n: nat)
    requires n > 0
    ensures c * n % n == 0
  {
    DivModUnique(c * n, n, c, 0);
  }

  lemma Pow2Half()
    ensures Pow2(32) == 0x1_0000_0000
  {
    assert Pow2(2) == 4;
    Pow2Add(2, 2);
    Pow2Add(4, 4);
    Pow2Add(8, 8);
    Pow2Add(16, 16);
  }

  lemma Pow2Word()
    ensures Pow2(64) == 0x1_0000_0000_0000_0000
  {
    Pow2Half();
    Pow2Add(32, 32);
  }

  lemma ModOfMod(x: int, a: nat, b: nat)
    requires a > 0 && b > 0
    ensures a * b > 0 && x % (a * b) % a == x % a
  {
    assert a * b > 0;
    var y := x % (a * b);
    var k := x / (a * b);
    var q, r := y / a, y % a;
    assert x == k * (a * b) + y;
    assert k * (a * b) == (k * b) * a;
    assert x == (k * b + q) * a + r by {
      assert (k * b + q) * a == (k * b) * a + q * a;
    }
    DivModUnique(x, a, k * b + q, r);
  }

  /** Truncating to `n` bits, then to `m`, is truncating to `m`. */
  lemma TruncateTwice(x: int, m: nat, n: nat)
    requires m <= n
    ensures x % Pow2(n) % Pow2(m) == x % Pow2(m)
  {
    Pow2Add(m, n - m);
    ModOfMod(x, Pow2(m), Pow2(n - m));
  }

  // ----- Bounds -----

  lemma {:induction false} AndBound(a: nat, b: nat)
    ensures And(a, b) <= a && And(a, b) <= b
    decreases a
  {
    if a > 0 { AndBound(a / 2, b / 2); }
  }

  lemma {:induction false} OrBound(a: nat, b: nat, k: nat)
    requires a < Pow2(k) && b < Pow2(k)
    ensures Or(a, b) < Pow2(k)
  {
    if k > 0 { OrBound(a / 2, b / 2, k - 1); }
  }

  lemma {:induction false} XorBound(a: nat, b: nat, k: nat)
    requires a < Pow2(k) && b < Pow2(k)
    ensures Xor(a, b) < Pow2(k)
  {
    if k > 0 { XorBound(a / 2, b / 2, k - 1); }
  }

  // ----- Masks and sign bits -----

  lemma HalfMod(x: nat, p: nat)
    requires p > 0
    ensures x % (2 * p) == 2 * (x / 2 % p) + x % 2
  {
    var q, r := x / 2 / p, x / 2 % p;
    assert x / 2 == q * p + r;
    assert q * (2 * p) == 2 * (q * p);
    DivModUnique(x, 2 * p, q, 2 * r + x % 2);
  }

  /** `x & (2^k - 1)` keeps the low `k` bits. */
  lemma {:induction false} AndMask(x: nat, k: nat)
    ensures And(x, Pow2(k) - 1) == x % Pow2(k)
    decreases k
  {
    if k == 0 {
      AndZero(x);
    } else {
      var p := Pow2(k - 1);
      AndMask(x / 2, k - 1);
      HalfMod(x, p);
      AndHalf(x, Pow2(k) - 1);
      assert (Pow2(k) - 1) / 2 == p - 1 && (Pow2(k) - 1) % 2 == 1;
    }
  }

  lemma AndHalf(a: nat, b: nat)
    ensures And(a, b) == 2 * And(a / 2, b / 2) + (if a % 2 == 1 && b % 2 == 1 then 1 else 0)
  {
  }

  lemma {:induction false} AndZero(x: nat)
    ensures And(x, 0) == 0
  {
    if x > 0 { AndZero(x / 2); }
  }

  /** The mask of width `w` without its low `m` bits. */
  lemma {:induction false} XorMasks(w: nat, m: nat)
    requires m <= w
    ensures Xor(Pow2(w) - 1, Pow2(m) - 1) == Pow2(w) - Pow2(m)
  {
    if m == 0 {
      XorZero(Pow2(w) - 1);
    } else {
      XorMasks(w - 1, m - 1);
    }
  }

  lemma {:induction false} XorZero(x: nat)
    ensures Xor(x, 0) == x && Xor(0, x) == x
  {
    if x > 0 { XorZero(x / 2); }
  }

  /** Or-ing bits above `m` into a value below `2^m` adds them. */
  lemma {:induction false} OrDisjoint(x: nat, c: nat, m: nat)
    requires x < Pow2(m)
    ensures Or(x, c * Pow2(m)) == x + c * Pow2(m)
    decreases m
  {
    if m == 0 {
      OrZero(c);
    } else {
      var y := c * Pow2(m - 1);
      assert c * Pow2(m) == 2 * y;
      OrDisjoint(x / 2, c, m - 1);
      assert (2 * y) / 2 == y && (2 * y) % 2 == 0;
    }
  }

  lemma {:induction false} OrZero(x: nat)
    ensures Or(x, 0) == x && Or(0, x) == x
  {
    if x > 0 { OrZero(x / 2); }
  }

  /** Xor with the sign bit moves a value to the other half of its range. */
  lemma {:induction false} XorSign(x: nat, k: nat)
    requires x < 2 * Pow2(k)
    ensures Xor(x, Pow2(k)) == if x < Pow2(k) then x + Pow2(k) else x - Pow2(k)
  {
    if k > 0 {
      XorSign(x / 2, k - 1);
    }
  }

  /** And with the sign bit tests the upper half of the range. */
  lemma {:induction false} AndSign(x: nat, k: nat)
    requires x < 2 * Pow2(k)
    ensures And(x, Pow2(k)) == if x < Pow2(k) then 0 else Pow2(k)
  {
    if k > 0 {
      AndSign(x / 2, k - 1);
    }
  }

  // ----- Xor as addition without carries -----

  lemma {:induction false} XorComm(a: nat, b: nat)
    ensures Xor(a, b) == Xor(b, a)
    decreases a + b
  {
    if a != 0 || b != 0 { XorComm(a / 2, b / 2); }
  }

  lemma {:induction false} XorSelf(a: nat)
    ensures Xor(a, a) == 0
  {
    if a != 0 { XorSelf(a / 2); }
  }

  lemma XorHalf(a: nat, b: nat)
    ensures Xor(a, b) / 2 == Xor(a / 2, b / 2)
    ensures Xor(a, b) % 2 == if a % 2 != b % 2 then 1 else 0
  {
  }

  lemma {:induction false} XorAssoc(a: nat, b: nat, c: nat)
    ensures Xor(Xor(a, b), c) == Xor(a, Xor(b, c))
    decreases a + b + c
  {
    if a + b + c != 0 {
      XorAssoc(a / 2, b / 2, c / 2);
      XorHalf(a, b);
      XorHalf(b, c);
      XorHalf(Xor(a, b), c);
      XorHalf(a, Xor(b, c));
    }
  }

  lemma {:induction false} XorEqual(a: nat, b: nat)
    ensures Xor(a, b) == 0 <==> a == b
    decreases a + b
  {
    if a != 0 || b != 0 { XorEqual(a / 2, b / 2); }
  }
}
