/** The CRC-32 register as what section 8 of RFC 1952 calls it: a remainder in the
    division of polynomials over two elements, the lowest bit of each byte coming first. */
module CrcRemainder {
  import opened Bits
  import opened Crc

  // ----- Polynomials over two elements -----

  /** Bit `e` of a number is the coefficient of x^e; this is the generator of the standard. */
  const GENERATOR: nat :=
    Pow2(32) + Pow2(26) + Pow2(23) + Pow2(22) + Pow2(16) + Pow2(12) + Pow2(11) + Pow2(10) +
    Pow2(8) + Pow2(7) + Pow2(5) + Pow2(4) + Pow2(2) + Pow2(1) + Pow2(0)

  /** Multiplication by x^n. */
  function Raised(a: nat, n: nat): nat
    decreases n
  {
    if n == 0 then a else Raised(2 * a, n - 1)
  }

  /** Multiplication without carries. */
  function Times(q: nat, g: nat): nat {
    if q == 0 then 0 else Xor(2 * Times(q / 2, g), if q % 2 == 1 then g else 0)
  }

  /** The generator divides the difference of the two. */
  ghost predicate Congruent(a: nat, b: nat) {
    exists q: nat :: Xor(a, b) == Times(q, GENERATOR)
  }

  /** `r` is what is left of `p` after division by the generator. */
  ghost predicate IsRemainder(r: nat, p: nat) {
    r < Pow2(32) && Congruent(p, r)
  }

  /** The low `n` bits in the other order. */
  function Mirror(x: nat, n: nat): nat
    decreases n
  {
    if n == 0 then 0 else Xor(if x % 2 == 1 then Pow2(n - 1) else 0, Mirror(x / 2, n - 1))
  }

  /** The message, the first byte's lowest bit being its highest coefficient. */
  function Message(bytes: seq<Byte>): nat {
    if bytes == [] then 0
    else Xor(Raised(Message(bytes[..|bytes| - 1]), 8), Mirror(bytes[|bytes| - 1], 8))
  }

  // ----- Sums and products -----

  lemma Doubled(a: nat, b: nat)
    ensures Xor(2 * a, 2 * b) == 2 * Xor(a, b)
  {
    if a > 0 || b > 0 {
      assert (2 * a) / 2 == a && (2 * b) / 2 == b;
    }
  }

  lemma {:induction false} RaisedSum(a: nat, b: nat, n: nat)
    ensures Raised(Xor(a, b), n) == Xor(Raised(a, n), Raised(b, n))
    decreases n
  {
    if n > 0 {
      Doubled(a, b);
      RaisedSum(2 * a, 2 * b, n - 1);
    }
  }

  lemma {:induction false} RaisedTwice(a: nat, m: nat, n: nat)
    ensures Raised(Raised(a, m), n) == Raised(a, m + n)
    decreases m
  {
    if m > 0 { RaisedTwice(2 * a, m - 1, n); }
  }

  lemma {:induction false} TimesSum(p: nat, q: nat, g: nat)
    ensures Times(Xor(p, q), g) == Xor(Times(p, g), Times(q, g))
    decreases p + q
  {
    if p == 0 {
      XorZero(q);
      XorZero(Times(q, g));
    } else if q == 0 {
      XorZero(p);
      XorZero(Times(p, g));
    } else {
      hide Xor;
      XorHalf(p, q);
      TimesSum(p / 2, q / 2, g);
      Doubled(Times(p / 2, g), Times(q / 2, g));
      var a, b := if p % 2 == 1 then g else 0, if q % 2 == 1 then g else 0;
      XorSwap(2 * Times(p / 2, g), a, 2 * Times(q / 2, g), b);
      XorSelf(g);
      XorZero(g);
      XorZero(0);
      TimesZero(Xor(p, q), g);
    }
  }

  /** The recursion also holds where it stops. */
  lemma TimesZero(q: nat, g: nat)
    ensures Times(q, g) == Xor(2 * Times(q / 2, g), if q % 2 == 1 then g else 0)
  {
    if q == 0 { XorZero(0); }
  }

  lemma TimesDouble(q: nat, g: nat)
    ensures Times(2 * q, g) == 2 * Times(q, g)
  {
    TimesZero(2 * q, g);
    XorZero(2 * Times(q, g));
  }

  lemma TimesOne(g: nat)
    ensures Times(1, g) == g
  {
    XorZero(g);
  }

  // ----- Congruence -----

  lemma SameIsCongruent(a: nat)
    ensures Congruent(a, a)
  {
    XorSelf(a);
    assert Times(0, GENERATOR) == 0;
  }

  lemma CongruentSum(a: nat, b: nat, c: nat, d: nat)
    requires Congruent(a, b) && Congruent(c, d)
    ensures Congruent(Xor(a, c), Xor(b, d))
  {
    var p: nat :| Xor(a, b) == Times(p, GENERATOR);
    var q: nat :| Xor(c, d) == Times(q, GENERATOR);
    TimesSum(p, q, GENERATOR);
    XorSwap(a, c, b, d);
    assert Xor(Xor(a, c), Xor(b, d)) == Times(Xor(p, q), GENERATOR);
  }

  lemma CongruentTrans(a: nat, b: nat, c: nat)
    requires Congruent(a, b) && Congruent(b, c)
    ensures Congruent(a, c)
  {
    var p: nat :| Xor(a, b) == Times(p, GENERATOR);
    var q: nat :| Xor(b, c) == Times(q, GENERATOR);
    TimesSum(p, q, GENERATOR);
    XorAssoc(a, b, Xor(b, c));
    XorAssoc(b, b, c);
    XorSelf(b);
    XorZero(c);
    assert Xor(a, c) == Times(Xor(p, q), GENERATOR);
  }

  lemma CongruentSym(a: nat, b: nat)
    requires Congruent(a, b)
    ensures Congruent(b, a)
  {
    XorComm(a, b);
  }

  lemma {:induction false} CongruentRaised(a: nat, b: nat, n: nat)
    requires Congruent(a, b)
    ensures Congruent(Raised(a, n), Raised(b, n))
    decreases n
  {
    if n > 0 {
      var q: nat :| Xor(a, b) == Times(q, GENERATOR);
      Doubled(a, b);
      TimesDouble(q, GENERATOR);
      assert Xor(2 * a, 2 * b) == Times(2 * q, GENERATOR);
      CongruentRaised(2 * a, 2 * b, n - 1);
    }
  }

  // ----- Remainders -----

  lemma {:induction false} XorKeepsHigh(a: nat, b: nat, n: nat)
    requires b < Pow2(n) <= a
    ensures Xor(a, b) >= Pow2(n)
    decreases n
  {
    if n == 0 {
      XorZero(a);
    } else {
      XorKeepsHigh(a / 2, b / 2, n - 1);
    }
  }

  lemma GeneratorIs()
    ensures GENERATOR == 0x104C11DB7
  {
    assert Pow2(5) == 32 && Pow2(8) == 256;
    Pow2Half();
    Pow2Add(8, 2);
    Pow2Add(8, 3);
    Pow2Add(8, 4);
    Pow2Add(8, 8);
    Pow2Add(16, 2);
    Pow2Add(16, 5);
    Pow2Add(18, 4);
    Pow2Add(18, 5);
    Pow2Add(21, 5);
  }

  /** A multiple of the generator other than zero has degree 32 or more. */
  lemma {:induction false} MultiplesAreLarge(q: nat)
    requires q > 0
    ensures Times(q, GENERATOR) >= Pow2(32)
  {
    GeneratorIs();
    Pow2Half();
    assert Pow2(33) == 2 * Pow2(32);
    hide Xor, Pow2;
    if q == 1 {
      TimesOne(GENERATOR);
    } else {
      MultiplesAreLarge(q / 2);
      var g := if q % 2 == 1 then GENERATOR else 0;
      XorKeepsHigh(2 * Times(q / 2, GENERATOR), g, 33);
    }
  }

  /** There is only one remainder. */
  lemma RemainderIsUnique(p: nat, r: nat, r': nat)
    requires IsRemainder(r, p) && IsRemainder(r', p)
    ensures r == r'
  {
    CongruentSym(p, r);
    CongruentTrans(r, p, r');
    var q: nat :| Xor(r, r') == Times(q, GENERATOR);
    XorBound(r, r', 32);
    if q > 0 { MultiplesAreLarge(q); }
    XorEqual(r, r');
  }

  // ----- Mirrors -----

  lemma {:induction false} MirrorSum(a: nat, b: nat, n: nat)
    ensures Mirror(Xor(a, b), n) == Xor(Mirror(a, n), Mirror(b, n))
    decreases n
  {
    if n == 0 {
      XorZero(0);
    } else {
      XorHalf(a, b);
      MirrorSum(a / 2, b / 2, n - 1);
      var p := Pow2(n - 1);
      hide Xor;
      XorSelf(p);
      XorZero(p);
      XorZero(0);
      XorSwap(if a % 2 == 1 then p else 0, Mirror(a / 2, n - 1), if b % 2 == 1 then p else 0, Mirror(b / 2, n - 1));
    }
  }

  lemma {:induction false} MirrorFits(x: nat, n: nat)
    ensures Mirror(x, n) < Pow2(n)
    decreases n
  {
    if n > 0 {
      MirrorFits(x / 2, n - 1);
      XorBound(if x % 2 == 1 then Pow2(n - 1) else 0, Mirror(x / 2, n - 1), n);
    }
  }

  /** One more bit in front of a value that does not use it. */
  lemma {:induction false} MirrorLonger(h: nat, n: nat)
    requires h < Pow2(n)
    ensures Mirror(h, n + 1) == 2 * Mirror(h, n)
    decreases n
  {
    if n == 0 {
      XorZero(0);
    } else {
      MirrorLonger(h / 2, n - 1);
      Doubled(if h % 2 == 1 then Pow2(n - 1) else 0, Mirror(h / 2, n - 1));
    }
  }

  lemma {:induction false} RaisedDoubles(a: nat, n: nat)
    ensures Raised(a, n + 1) == 2 * Raised(a, n)
    decreases n
  {
    if n > 0 { RaisedDoubles(2 * a, n - 1); }
  }

  lemma {:induction false} MirrorExtends(h: nat, n: nat, k: nat)
    requires h < Pow2(n)
    ensures Mirror(h, n + k) == Raised(Mirror(h, n), k)
    decreases k
  {
    if k > 0 {
      MirrorExtends(h, n, k - 1);
      Pow2Grows(n, n + k - 1);
      MirrorLonger(h, n + k - 1);
      RaisedDoubles(Mirror(h, n), k - 1);
    }
  }

  /** Mirrored by addition, to compute with. */
  function Reversed(x: nat, n: nat): nat
    decreases n
  {
    if n == 0 then 0 else (if x % 2 == 1 then Pow2(n - 1) else 0) + Reversed(x / 2, n - 1)
  }

  lemma {:induction false} MirrorIsReversed(x: nat, n: nat)
    ensures Mirror(x, n) == Reversed(x, n)
    decreases n
  {
    if n > 0 {
      MirrorIsReversed(x / 2, n - 1);
      MirrorFits(x / 2, n - 1);
      XorZero(Mirror(x / 2, n - 1));
      XorComm(Pow2(n - 1), Mirror(x / 2, n - 1));
      XorSign(Mirror(x / 2, n - 1), n - 1);
    }
  }

  /** The register's constant is the generator's low part, mirrored. */
  lemma PolynomialIsGenerator()
    ensures Xor(Pow2(32), Mirror(POLYNOMIAL, 32)) == GENERATOR
  {
    GeneratorIs();
    MirrorIsReversed(POLYNOMIAL, 32);
    Pow2Half();
    ReversedPolynomial();
    XorComm(Pow2(32), 0x04C11DB7);
    XorSign(0x04C11DB7, 32);
  }

  /** Mirrored one bit at a time, each pushing the others up. */
  function Turned(x: nat, n: nat, acc: nat): nat
    decreases n
  {
    if n == 0 then acc else Turned(x / 2, n - 1, 2 * acc + x % 2)
  }

  lemma {:induction false} TurnedIsReversed(x: nat, n: nat, acc: nat)
    ensures Turned(x, n, acc) == Raised(acc, n) + Reversed(x, n)
    decreases n
  {
    if n > 0 {
      TurnedIsReversed(x / 2, n - 1, 2 * acc + x % 2);
      RaisedPlus(2 * acc, n - 1);
    }
  }

  lemma {:induction false} RaisedPlus(a: nat, n: nat)
    ensures Raised(a + 1, n) == Raised(a, n) + Pow2(n)
    decreases n
  {
    if n > 0 {
      RaisedPlus(2 * a, n - 1);
      RaisedPlus(2 * a + 1, n - 1);
    }
  }

  lemma {:induction false} RaisedZero(n: nat)
    ensures Raised(0, n) == 0
  {
    if n > 0 { RaisedZero(n - 1); }
  }

  lemma TurnedNibble(h: nat, a: bool, b: bool, c: bool, d: bool, n: nat, acc: nat)
    ensures var bit := (x: bool) => if x then 1 else 0;
            Turned(16 * h + 8 * bit(d) + 4 * bit(c) + 2 * bit(b) + bit(a), n + 4, acc)
              == Turned(h, n, 16 * acc + 8 * bit(a) + 4 * bit(b) + 2 * bit(c) + bit(d))
  {
    var bit := (x: bool) => if x then 1 else 0;
    var x3 := 2 * h + bit(d);
    var x2 := 2 * x3 + bit(c);
    var x1 := 2 * x2 + bit(b);
    var x0 := 2 * x1 + bit(a);
    assert x0 / 2 == x1 && x1 / 2 == x2 && x2 / 2 == x3 && x3 / 2 == h;
    var y0 := 2 * acc + bit(a);
    var y1 := 2 * y0 + bit(b);
    var y2 := 2 * y1 + bit(c);
    assert Turned(x0, n + 4, acc) == Turned(x1, n + 3, y0);
    assert Turned(x1, n + 3, y0) == Turned(x2, n + 2, y1);
    assert Turned(x2, n + 2, y1) == Turned(x3, n + 1, y2);
    assert Turned(x3, n + 1, y2) == Turned(h, n, 2 * y2 + bit(d));
  }

  lemma ReversedPolynomial()
    ensures Reversed(0xEDB88320, 32) == 0x04C11DB7
  {
    hide Turned, Reversed;
    TurnedNibble(0xEDB8832, false, false, false, false, 28, 0x0);
    TurnedNibble(0xEDB883, false, true, false, false, 24, 0x0);
    TurnedNibble(0xEDB88, true, true, false, false, 20, 0x04);
    TurnedNibble(0xEDB8, false, false, false, true, 16, 0x04C);
    TurnedNibble(0xEDB, false, false, false, true, 12, 0x04C1);
    TurnedNibble(0xED, true, true, false, true, 8, 0x04C11);
    TurnedNibble(0xE, true, false, true, true, 4, 0x04C11D);
    TurnedNibble(0x0, false, true, true, true, 0, 0x04C11DB);
    TurnedEnds(0x04C11DB7);
    TurnedIsReversed(0xEDB88320, 32, 0);
    RaisedZero(32);
  }

  lemma TurnedEnds(acc: nat)
    ensures Turned(0, 0, acc) == acc
  {
  }

  // ----- The register is a remainder -----

  lemma MirrorStep(x: nat, n: nat)
    requires n > 0
    ensures Mirror(x, n) == Xor(if x % 2 == 1 then Pow2(n - 1) else 0, Mirror(x / 2, n - 1))
    ensures Pow2(n) == 2 * Pow2(n - 1)
  {
  }

  lemma ShiftDoubles(x: nat)
    requires x < Pow2(32)
    ensures Congruent(Mirror(Shift(x), 32), 2 * Mirror(x, 32))
  {
    hide Xor, Times, Congruent, Mirror, Pow2;
    var h, m := x / 2, Mirror(x / 2, 31);
    MirrorStep(x, 32);
    MirrorLonger(h, 31);
    XorZero(m);
    if x % 2 == 0 {
      SameIsCongruent(2 * m);
    } else {
      MirrorSum(h, POLYNOMIAL, 32);
      Doubled(Pow2(31), m);
      XorComm(Pow2(32), 2 * m);
      XorSwap(2 * m, Mirror(POLYNOMIAL, 32), 2 * m, Pow2(32));
      XorSelf(2 * m);
      PolynomialIsGenerator();
      XorComm(Pow2(32), Mirror(POLYNOMIAL, 32));
      XorZero(GENERATOR);
      DifferByGenerator(Mirror(Shift(x), 32), 2 * Mirror(x, 32));
    }
  }

  lemma DifferByGenerator(a: nat, b: nat)
    requires Xor(a, b) == GENERATOR
    ensures Congruent(a, b)
  {
    TimesOne(GENERATOR);
  }

  lemma {:induction false} ClockRaises(x: nat, n: nat)
    requires x < Pow2(32)
    ensures Congruent(Mirror(Clock(x, n), 32), Raised(Mirror(x, 32), n))
    decreases n
  {
    hide Congruent, Mirror, Shift, Pow2;
    if n == 0 {
      SameIsCongruent(Mirror(x, 32));
    } else {
      ClockFits(x, 1);
      ClockOnce(x);
      ClockRaises(Shift(x), n - 1);
      ShiftDoubles(x);
      CongruentRaised(Mirror(Shift(x), 32), 2 * Mirror(x, 32), n - 1);
      CongruentTrans(Mirror(Clock(x, n), 32), Raised(Mirror(Shift(x), 32), n - 1), Raised(Mirror(x, 32), n));
    }
  }

  lemma ClockOnce(x: nat)
    ensures Clock(x, 1) == Shift(x)
  {
    hide Shift;
    assert Clock(Shift(x), 0) == Shift(x);
  }

  lemma {:induction false} RegisterSnoc(start: nat, bytes: seq<Byte>)
    requires bytes != []
    ensures Register(start, bytes) == Clock(Xor(Register(start, bytes[..|bytes| - 1]), bytes[|bytes| - 1]), 8)
    decreases |bytes|
  {
    hide Clock, Xor;
    var n := |bytes| - 1;
    if n == 0 {
      assert bytes[..0] == [] && bytes[1..] == [];
    } else {
      RegisterSnoc(Clock(Xor(start, bytes[0]), 8), bytes[1..]);
      assert bytes[1..][..n - 1] == bytes[..n][1..];
    }
  }

  /** Sums regrouped as the last byte comes in. */
  lemma Regroup(m: nat, s: nat, b: nat, n: nat)
    ensures Xor(Raised(Xor(Raised(m, 32), Raised(s, n)), 8), Raised(b, 32)) ==
              Xor(Raised(Xor(Raised(m, 8), b), 32), Raised(s, n + 8))
  {
    hide Xor, Raised;
    RaisedSum(Raised(m, 32), Raised(s, n), 8);
    RaisedTwice(m, 32, 8);
    RaisedTwice(m, 8, 32);
    RaisedTwice(s, n, 8);
    RaisedSum(Raised(m, 8), b, 32);
    var x, y, z := Raised(m, 40), Raised(s, n + 8), Raised(b, 32);
    XorAssoc(x, y, z);
    XorComm(y, z);
    XorAssoc(x, z, y);
  }

  /** The register is congruent to the message times x^32, plus what it started with
      pushed in front of the message. */
  lemma {:induction false} RegisterDivides(start: nat, bytes: seq<Byte>)
    requires start < Pow2(32)
    ensures Congruent(Mirror(Register(start, bytes), 32),
                      Xor(Raised(Message(bytes), 32), Raised(Mirror(start, 32), 8 * |bytes|)))
    decreases |bytes|
  {
    hide Congruent, Mirror, Clock, Xor, Pow2, Raised;
    if bytes == [] {
      RaisedZero(32);
      RaisedNothing(Mirror(start, 32));
      XorZero(Mirror(start, 32));
      SameIsCongruent(Mirror(start, 32));
    } else {
      LastByteDivides(start, bytes);
    }
  }

  lemma RaisedNothing(a: nat)
    ensures Raised(a, 0) == a
  {
  }

  lemma LastByteDivides(start: nat, bytes: seq<Byte>)
    requires start < Pow2(32) && bytes != []
    ensures Congruent(Mirror(Register(start, bytes), 32),
                      Xor(Raised(Message(bytes), 32), Raised(Mirror(start, 32), 8 * |bytes|)))
    decreases |bytes|, 0
  {
    hide Congruent, Mirror, Clock, Xor, Pow2, Raised, Register;
    var n, b := |bytes| - 1, bytes[|bytes| - 1];
    var front := bytes[..n];
    var r, m, s := Register(start, front), Message(front), Mirror(start, 32);
    ByteFits(b);
    RegisterDivides(start, front);
    RegisterFits(start, front);
    RegisterSnoc(start, bytes);
    XorBound(r, b, 32);
    ClockRaises(Xor(r, b), 8);
    MirrorSum(r, b, 32);
    RaisedSum(Mirror(r, 32), Mirror(b, 32), 8);
    MirrorExtends(b, 8, 24);
    RaisedTwice(Mirror(b, 8), 24, 8);
    var before := Xor(Raised(m, 32), Raised(s, 8 * n));
    CongruentRaised(Mirror(r, 32), before, 8);
    SameIsCongruent(Raised(Mirror(b, 8), 32));
    CongruentSum(Raised(Mirror(r, 32), 8), Raised(before, 8), Raised(Mirror(b, 8), 32), Raised(Mirror(b, 8), 32));
    Regroup(m, s, Mirror(b, 8), 8 * n);
    CongruentTrans(Mirror(Register(start, bytes), 32), Raised(Mirror(Xor(r, b), 32), 8),
                   Xor(Raised(Message(bytes), 32), Raised(s, 8 * |bytes|)));
  }

  lemma ByteFits(b: Byte)
    ensures b < Pow2(8) == 256 && Pow2(8) <= Pow2(32)
  {
    Pow2Grows(8, 32);
  }

  /** The checksum, its complement taken back and its bits in the standard's order, is the
      remainder of the message times x^32, with 32 ones added in front of it, in the
      division by the generator; and the only one. */
  lemma Crc32IsRemainder(bytes: seq<Byte>)
    ensures var r := Mirror(Xor(Crc32(bytes), ONES), 32);
            var p := Xor(Raised(Message(bytes), 32), Raised(ONES, 8 * |bytes|));
            IsRemainder(r, p) && forall r' :: IsRemainder(r', p) ==> r' == r
  {
    hide Congruent, Mirror, Raised, Register, Message;
    Pow2Half();
    var x := Register(ONES, bytes);
    XorAssoc(x, ONES, ONES);
    XorSelf(ONES);
    XorZero(x);
    RegisterDivides(ONES, bytes);
    MirroredOnes();
    MirrorFits(x, 32);
    var r, p := Mirror(x, 32), Xor(Raised(Message(bytes), 32), Raised(ONES, 8 * |bytes|));
    CongruentSym(r, p);
    forall r' | IsRemainder(r', p)
      ensures r' == r
    {
      RemainderIsUnique(p, r, r');
    }
  }

  lemma {:induction false} AllOnes(n: nat)
    ensures Reversed(Pow2(n) - 1, n) == Pow2(n) - 1
  {
    if n > 0 {
      AllOnes(n - 1);
      assert (Pow2(n) - 1) / 2 == Pow2(n - 1) - 1 && (Pow2(n) - 1) % 2 == 1;
    }
  }

  lemma MirroredOnes()
    ensures Mirror(ONES, 32) == ONES
  {
    hide Mirror, Reversed;
    Pow2Half();
    AllOnes(32);
    MirrorIsReversed(ONES, 32);
  }
}
