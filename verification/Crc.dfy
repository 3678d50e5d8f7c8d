/** The bitwise CRC-32 of section 8 of RFC 1952, and the errors it cannot miss. */
module Crc {
  import opened Bits

  type Byte = x: int | 0 <= x < 256

  const POLYNOMIAL: nat := 0xEDB88320

  const ONES: nat := 0xFFFFFFFF

  /** One shift of the register. */
  function Shift(x: nat): nat {
    if x % 2 == 1 then Xor(x / 2, POLYNOMIAL) else x / 2
  }

  function Clock(x: nat, n: nat): nat
    decreases n
  {
    if n == 0 then x else Clock(Shift(x), n - 1)
  }

  /** The register after all of `bytes`, first byte first. */
  function Register(start: nat, bytes: seq<Byte>): nat
    decreases |bytes|
  {
    if bytes == [] then start else Register(Clock(Xor(start, bytes[0]), 8), bytes[1..])
  }

  function Crc32(bytes: seq<Byte>): nat {
    Xor(Register(ONES, bytes), ONES)
  }

  // ----- The loop -----

  method Compute(data: seq<Byte>) returns (crc: nat)
    ensures crc == Crc32(data)
  {
    crc := ONES;
    var i := 0;
    while i < |data|
      invariant 0 <= i <= |data|
      invariant Register(crc, data[i..]) == Register(ONES, data)
    {
      ghost var before := crc;
      crc := Xor(crc, data[i]);
      var j := 0;
      while j < 8
        invariant 0 <= j <= 8
        invariant Clock(crc, 8 - j) == Clock(Xor(before, data[i]), 8)
      {
        crc := if crc % 2 != 0 then Xor(crc / 2, POLYNOMIAL) else crc / 2;
        j := j + 1;
      }
      assert data[i..][1..] == data[i + 1..];
      i := i + 1;
    }
    crc := Xor(crc, ONES);
  }

  // ----- The register is linear -----

  lemma XorSwap(a: nat, b: nat, c: nat, d: nat)
    ensures Xor(Xor(a, b), Xor(c, d)) == Xor(Xor(a, c), Xor(b, d))
  {
    XorAssoc(Xor(a, b), c, d);
    XorAssoc(a, b, c);
    XorComm(b, c);
    XorAssoc(a, c, b);
    XorAssoc(Xor(a, c), b, d);
  }

  lemma ShiftLinear(x: nat, y: nat)
    ensures Shift(Xor(x, y)) == Xor(Shift(x), Shift(y))
  {
    XorHalf(x, y);
    var h, k, p := x / 2, y / 2, POLYNOMIAL;
    XorAssoc(h, k, p);
    XorAssoc(h, p, k);
    XorComm(k, p);
    XorSwap(h, p, k, p);
    XorSelf(p);
    XorZero(Xor(h, k));
  }

  lemma {:induction false} ClockLinear(x: nat, y: nat, n: nat)
    ensures Clock(Xor(x, y), n) == Xor(Clock(x, n), Clock(y, n))
    decreases n
  {
    if n > 0 {
      ShiftLinear(x, y);
      ClockLinear(Shift(x), Shift(y), n - 1);
    }
  }

  lemma ShiftEven(y: nat)
    ensures Shift(2 * y) == y
  {
    hide Xor;
  }

  /** A value with `n` low zero bits is only shifted. */
  lemma {:induction false} ClockPadded(x: nat, n: nat)
    ensures Clock(x * Pow2(n), n) == x
    decreases n
  {
    hide Xor, Shift;
    if n > 0 {
      var y := x * Pow2(n - 1);
      assert x * Pow2(n) == 2 * y;
      ShiftEven(y);
      ClockPadded(x, n - 1);
    }
  }

  lemma {:induction false} ClockAdd(x: nat, m: nat, n: nat)
    ensures Clock(x, m + n) == Clock(Clock(x, m), n)
    decreases m
  {
    if m > 0 { ClockAdd(Shift(x), m - 1, n); }
  }

  lemma PolynomialFits()
    ensures POLYNOMIAL < Pow2(32) == 2 * Pow2(31) && Pow2(31) <= POLYNOMIAL
  {
    Pow2Half();
    assert Pow2(32) == 2 * Pow2(31);
  }

  /** A register that is not zero never becomes zero. */
  lemma {:induction false} ClockKeepsNonzero(x: nat, n: nat)
    requires 0 < x < Pow2(32)
    ensures 0 < Clock(x, n) < Pow2(32)
    decreases n
  {
    if n > 0 {
      PolynomialFits();
      XorBound(x / 2, POLYNOMIAL, 32);
      XorEqual(x / 2, POLYNOMIAL);
      ClockKeepsNonzero(Shift(x), n - 1);
    }
  }

  // ----- Differences -----

  /** The difference of two byte strings as one number, first byte lowest. */
  function ErrorWord(a: seq<Byte>, b: seq<Byte>): nat
    requires |a| == |b|
    decreases |a|
  {
    if a == [] then 0 else Xor(a[0], b[0]) + 256 * ErrorWord(a[1..], b[1..])
  }

  lemma ByteBits(x: Byte, y: Byte)
    ensures Xor(x, y) < Pow2(8) == 256
  {
    assert Pow2(8) == 256 by { Pow2Add(4, 4); }
    XorBound(x, y, 8);
  }

  lemma {:induction false} XorDisjoint(x: nat, c: nat, m: nat)
    requires x < Pow2(m)
    ensures Xor(x, c * Pow2(m)) == x + c * Pow2(m)
    decreases m
  {
    if m == 0 {
      XorZero(c);
    } else {
      var y := c * Pow2(m - 1);
      assert c * Pow2(m) == 2 * y;
      XorDisjoint(x / 2, c, m - 1);
      assert (2 * y) / 2 == y && (2 * y) % 2 == 0;
    }
  }

  /** Clocking a byte through moves the next byte into place. */
  lemma ByteStep(apart: nat, e: nat, w: nat)
    requires e < 256
    ensures Clock(Xor(apart, e + 256 * w), 8) == Xor(Clock(Xor(apart, e), 8), w)
  {
    hide Xor, Clock, Pow2;
    ByteBits(0, 0);
    XorDisjoint(e, w, 8);
    XorAssoc(apart, e, w * Pow2(8));
    ClockLinear(Xor(apart, e), w * Pow2(8), 8);
    ClockPadded(w, 8);
  }

  lemma RegistersApart(c: nat, d: nat, x: nat, y: nat)
    ensures Xor(Clock(Xor(c, x), 8), Clock(Xor(d, y), 8)) == Clock(Xor(Xor(c, d), Xor(x, y)), 8)
  {
    hide Xor, Clock;
    ClockLinear(Xor(c, x), Xor(d, y), 8);
    XorSwap(c, x, d, y);
  }

  lemma Unfold(c: nat, a: seq<Byte>)
    requires a != []
    ensures Register(c, a) == Register(Clock(Xor(c, a[0]), 8), a[1..])
  {
  }

  lemma UnfoldError(a: seq<Byte>, b: seq<Byte>)
    requires |a| == |b| > 0
    ensures ErrorWord(a, b) == Xor(a[0], b[0]) + 256 * ErrorWord(a[1..], b[1..])
  {
  }

  lemma NothingApart(c: nat, d: nat, a: seq<Byte>, b: seq<Byte>)
    requires a == b == []
    ensures Xor(Register(c, a), Register(d, b)) == Clock(Xor(Xor(c, d), ErrorWord(a, b)), 8 * |a|)
  {
    hide Xor;
    XorZero(Xor(c, d));
  }

  /** Two registers drift apart exactly as their difference, clocked. */
  lemma {:induction false} RegisterDifference(c: nat, d: nat, a: seq<Byte>, b: seq<Byte>)
    requires |a| == |b|
    ensures Xor(Register(c, a), Register(d, b)) == Clock(Xor(Xor(c, d), ErrorWord(a, b)), 8 * |a|)
    decreases |a|
  {
    hide Xor, Clock, Pow2, Register, ErrorWord;
    if a == [] {
      NothingApart(c, d, a, b);
    } else {
      Unfold(c, a);
      Unfold(d, b);
      UnfoldError(a, b);
      var c', d' := Clock(Xor(c, a[0]), 8), Clock(Xor(d, b[0]), 8);
      RegistersApart(c, d, a[0], b[0]);
      ByteBits(a[0], b[0]);
      ByteStep(Xor(c, d), Xor(a[0], b[0]), ErrorWord(a[1..], b[1..]));
      ClockAdd(Xor(Xor(c, d), ErrorWord(a, b)), 8, 8 * |a[1..]|);
      assert 8 * |a| == 8 + 8 * |a[1..]|;
      RegisterDifference(c', d', a[1..], b[1..]);
    }
  }

  /** Two equally long inputs collide exactly when their difference, clocked
      through the whole length, vanishes: what the bytes themselves are, and the
      start value, do not matter. */
  lemma CollideExactly(a: seq<Byte>, b: seq<Byte>)
    requires |a| == |b|
    ensures Crc32(a) == Crc32(b) <==> Clock(ErrorWord(a, b), 8 * |a|) == 0
  {
    RegisterDifference(ONES, ONES, a, b);
    XorSelf(ONES);
    XorZero(ErrorWord(a, b));
    var x, y := Register(ONES, a), Register(ONES, b);
    XorEqual(x, y);
    XorEqual(Crc32(a), Crc32(b));
    XorSwap(x, ONES, y, ONES);
    XorZero(Xor(x, y));
  }

  lemma {:induction false} ErrorWordBound(a: seq<Byte>, b: seq<Byte>)
    requires |a| == |b|
    ensures ErrorWord(a, b) < Pow2(8 * |a|)
    ensures ErrorWord(a, b) == 0 <==> a == b
    decreases |a|
  {
    if a != [] {
      ByteBits(a[0], b[0]);
      ErrorWordBound(a[1..], b[1..]);
      XorEqual(a[0], b[0]);
      Pow2Add(8, 8 * |a[1..]|);
      assert 8 * |a| == 8 + 8 * |a[1..]|;
      var w, p := ErrorWord(a[1..], b[1..]), Pow2(8 * |a[1..]|);
      assert Pow2(8) * w + 256 <= Pow2(8) * p;
      assert a == [a[0]] + a[1..] && b == [b[0]] + b[1..];
    }
  }

  lemma PowerBelow(v: nat, j: nat, n: nat)
    requires v > 0 && v * Pow2(j) < Pow2(n)
    ensures j < n
  {
    MulGrows(v, Pow2(j));
    if n <= j { Pow2Grows(n, j); }
  }

  /** Every burst of at most 32 bits, wherever it starts, changes the checksum. */
  lemma BurstIsDetected(a: seq<Byte>, b: seq<Byte>, burst: nat, at: nat)
    requires |a| == |b| && 0 < burst < Pow2(32)
    requires ErrorWord(a, b) == burst * Pow2(at)
    ensures Crc32(a) != Crc32(b)
  {
    hide Xor, Clock, Pow2, ErrorWord, Crc32;
    CollideExactly(a, b);
    ErrorWordBound(a, b);
    PowerBelow(burst, at, 8 * |a|);
    ClockAdd(ErrorWord(a, b), at, 8 * |a| - at);
    ClockPadded(burst, at);
    ClockKeepsNonzero(burst, 8 * |a| - at);
  }

  // ----- Corrupted bytes -----

  lemma Inner(a: seq<Byte>, p: nat, q: nat)
    requires 0 < p <= q <= |a|
    ensures a[1..][..p - 1] == a[..p][1..] && a[1..][q - 1..] == a[q..] && a[1..][p - 1..q - 1] == a[p..q]
  {
  }

  lemma {:induction false} ErrorWordOfWindow(a: seq<Byte>, b: seq<Byte>, p: nat, q: nat)
    requires |a| == |b| && p <= q <= |a| && a[..p] == b[..p] && a[q..] == b[q..]
    ensures ErrorWord(a, b) == ErrorWord(a[p..q], b[p..q]) * Pow2(8 * p)
    decreases q
  {
    if p > 0 {
      hide Xor, ErrorWord, Pow2;
      assert a[0] == a[..p][0] == b[..p][0] == b[0];
      XorSelf(a[0]);
      Inner(a, p, q);
      Inner(b, p, q);
      ErrorWordOfWindow(a[1..], b[1..], p - 1, q - 1);
      UnfoldError(a, b);
      ByteBits(0, 0);
      Pow2Add(8, 8 * (p - 1));
      assert 8 + 8 * (p - 1) == 8 * p;
      MulSwap(256, ErrorWord(a[p..q], b[p..q]), Pow2(8 * (p - 1)));
    } else {
      ErrorWordOfPrefix(a, b, q);
      assert a[p..q] == a[..q] && b[p..q] == b[..q];
    }
  }

  lemma MulSwap(x: nat, y: nat, z: nat)
    ensures x * (y * z) == y * (x * z)
  {
  }

  lemma {:induction false} ErrorWordOfPrefix(a: seq<Byte>, b: seq<Byte>, q: nat)
    requires |a| == |b| && q <= |a| && a[q..] == b[q..]
    ensures ErrorWord(a, b) == ErrorWord(a[..q], b[..q])
    decreases q
  {
    if q == 0 {
      assert a == a[q..] && b == b[q..];
      ErrorWordBound(a, b);
    } else {
      assert a[1..][q - 1..] == a[q..] && b[1..][q - 1..] == b[q..];
      assert a[..q][1..] == a[1..][..q - 1] && b[..q][1..] == b[1..][..q - 1];
      ErrorWordOfPrefix(a[1..], b[1..], q - 1);
    }
  }

  /** Inputs of one length that differ, and differ only inside four consecutive
      bytes, never share a checksum. */
  lemma FourByteCorruptionIsDetected(a: seq<Byte>, b: seq<Byte>, p: nat, q: nat)
    requires |a| == |b| && p <= q <= |a| && q <= p + 4
    requires a[..p] == b[..p] && a[q..] == b[q..] && a != b
    ensures Crc32(a) != Crc32(b)
  {
    hide Pow2, ErrorWord, Crc32;
    var burst := ErrorWord(a[p..q], b[p..q]);
    ErrorWordOfWindow(a, b, p, q);
    ErrorWordBound(a, b);
    ErrorWordBound(a[p..q], b[p..q]);
    Pow2Grows(8 * (q - p), 32);
    BurstIsDetected(a, b, burst, 8 * p);
  }

  // ----- Register width -----

  lemma {:induction false} ClockFits(x: nat, n: nat)
    requires x < Pow2(32)
    ensures Clock(x, n) < Pow2(32)
    decreases n
  {
    if n > 0 {
      PolynomialFits();
      XorBound(x / 2, POLYNOMIAL, 32);
      ClockFits(Shift(x), n - 1);
    }
  }

  lemma {:induction false} RegisterFits(start: nat, bytes: seq<Byte>)
    requires start < Pow2(32)
    ensures Register(start, bytes) < Pow2(32)
    decreases |bytes|
  {
    if bytes != [] {
      Pow2Half();
      XorBound(start, bytes[0], 32);
      ClockFits(Xor(start, bytes[0]), 8);
      RegisterFits(Clock(Xor(start, bytes[0]), 8), bytes[1..]);
    }
  }

  /** The checksum is a 32-bit word. */
  lemma Crc32Fits(bytes: seq<Byte>)
    ensures Crc32(bytes) < 0x1_0000_0000
  {
    Pow2Half();
    RegisterFits(ONES, bytes);
    XorBound(Register(ONES, bytes), ONES, 32);
  }
}
