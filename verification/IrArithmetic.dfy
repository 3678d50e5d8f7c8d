/** The interpreter's word arithmetic is integer arithmetic cut to a width. */
module IrArithmetic {
  import opened Bits
  import opened IR
  import opened IrInterpreter

  // ----- Integer meanings -----

  /** The two's-complement reading of a `w`-bit value. */
  function Signed(x: nat, w: nat): int {
    if 2 * x < Pow2(w) then x else x - Pow2(w)
  }

  /** The low `w` bits of an integer, as an unsigned value. */
  function Cut(x: int, w: nat): nat {
    x % Pow2(w)
  }

  function Halve(x: nat, times: nat): nat {
    DivShrinks(x, Pow2(times));
    x / Pow2(times)
  }

  /** Two-operand opcodes on `w`-bit values: exact integer results, cut to
      `w` bits. Shifts use the amount modulo 64; the arithmetic one divides
      the signed value, rounding down. */
  function Meaning(opcode: Opcode, a: nat, b: nat, w: nat): nat
    requires Binary(opcode)
  {
    match opcode
    case Add => Cut(a + b, w)
    case Subtract => Cut(a - b, w)
    case Multiply => Cut(a * b, w)
    case BitAnd => And(a, b)
    case BitOr => Or(a, b)
    case BitXor => Xor(a, b)
    case ShiftLeft => Cut(a * Pow2(b % 64), w)
    case ShiftRightLogical => Halve(a, b % 64)
    case ShiftRightArithmetic => Cut(Signed(a, w) / Pow2(b % 64), w)
    case CompareEqual => if a == b then 1 else 0
    case CompareNotEqual => if a != b then 1 else 0
    case CompareUnsignedLess => if a < b then 1 else 0
    case CompareSignedLess => if Signed(a, w) < Signed(b, w) then 1 else 0
  }

  // ----- Words are integers cut to a width -----

  lemma MaskIs(ty: ValueType)
    ensures Mask(ty) == Pow2(Width(ty)) - 1 && Pow2(Width(ty)) <= WORD
  {
    Pow2Half();
    Pow2Word();
    assert Pow2(1) == 2 && Pow2(8) == 0x100;
    Pow2Add(8, 8);
  }

  lemma TruncateIs(v: Word, ty: ValueType)
    ensures Truncate(v, ty) == Cut(v, Width(ty))
  {
    MaskIs(ty);
    AndMask(v, Width(ty));
  }

  lemma CutSmall(x: nat, w: nat)
    requires x < Pow2(w)
    ensures Cut(x, w) == x
  {
    DivModUnique(x, Pow2(w), 0, x);
  }

  lemma TruncateSmall(v: Word, ty: ValueType)
    requires v < Pow2(Width(ty))
    ensures Truncate(v, ty) == v
  {
    TruncateIs(v, ty);
    CutSmall(v, Width(ty));
  }

  lemma CutWord(x: int, ty: ValueType)
    ensures Truncate(x % WORD, ty) == Cut(x, Width(ty))
  {
    Pow2Word();
    TruncateIs(x % WORD, ty);
    TruncateTwice(x, Width(ty), 64);
  }

  lemma AmountIs(amount: Word)
    ensures And(amount, 63) == amount % 64
  {
    assert Pow2(6) == 64;
    AndMask(amount, 6);
  }

  lemma PowerFits(n: nat)
    requires n < 64
    ensures Left(1, n) == Pow2(n) < WORD
  {
    Pow2Word();
    Pow2Grows(n, 63);
    assert Pow2(64) == 2 * Pow2(63);
  }

  // ----- Shifts -----

  lemma LeftFar(a: nat, w: nat, s: nat)
    requires w <= s
    ensures Cut(a * Pow2(s), w) == 0
  {
    Pow2Add(s - w, w);
    MulAssoc(a, Pow2(s - w), Pow2(w));
    ModMultiple(a * Pow2(s - w), Pow2(w));
  }

  lemma LeftAgrees(a: Word, b: Word, ty: ValueType)
    requires IsInteger(ty) && a < Pow2(Width(ty))
    ensures ShiftedLeft(a, b, ty) == Cut(a * Pow2(b % 64), Width(ty))
  {
    var s := b % 64;
    AmountIs(b);
    TruncateSmall(a, ty);
    if s >= Width(ty) {
      LeftFar(a, Width(ty), s);
    } else {
      CutWord(a * Pow2(s), ty);
    }
  }

  lemma HalveFar(a: nat, w: nat, s: nat)
    requires a < Pow2(w) && w <= s
    ensures Halve(a, s) == 0
  {
    Pow2Grows(w, s);
    DivModUnique(a, Pow2(s), 0, a);
  }

  lemma RightAgrees(a: Word, b: Word, ty: ValueType)
    requires IsInteger(ty) && a < Pow2(Width(ty))
    ensures ShiftedRight(a, b, ty) == Halve(a, b % 64) <= a
  {
    var s := b % 64;
    AmountIs(b);
    TruncateSmall(a, ty);
    DivShrinks(a, Pow2(s));
    if s >= Width(ty) {
      HalveFar(a, Width(ty), s);
    }
  }

  /** A negative value divided by `2^s`, rounding down, re-read as unsigned:
      the shifted bits with the vacated high bits set. */
  lemma NegativeShift(a: nat, w: nat, s: nat)
    requires 0 < s < w && a < Pow2(w) <= 2 * a
    ensures Halve(a, s) < Pow2(w - s) <= Pow2(w)
    ensures Cut(Signed(a, w) / Pow2(s), w) == Halve(a, s) + (Pow2(w) - Pow2(w - s))
  {
    Pow2Add(w - s, s);
    Pow2Grows(w - s, w);
    DivLess(a, Pow2(s), Pow2(w - s));
    DivSub(a, Pow2(s), Pow2(w - s));
    ModNegative(Halve(a, s) - Pow2(w - s), Pow2(w));
  }

  lemma NegativeShiftFar(a: nat, w: nat, s: nat)
    requires 0 < w <= s && a < Pow2(w) <= 2 * a
    ensures Cut(Signed(a, w) / Pow2(s), w) == Pow2(w) - 1
  {
    Pow2Grows(w, s);
    var x := a - Pow2(w);
    DivModUnique(x, Pow2(s), -1, x + Pow2(s));
    ModNegative(-1, Pow2(w));
  }

  lemma SignBit(a: Word, ty: ValueType)
    requires IsInteger(ty) && a < Pow2(Width(ty))
    ensures And(a, Left(1, Width(ty) - 1)) != 0 <==> 2 * a >= Pow2(Width(ty))
  {
    var w := Width(ty);
    PowerFits(w - 1);
    AndSign(a, w - 1);
  }

  lemma FillIs(s: nat, ty: ValueType)
    requires 0 < s < Width(ty) && IsInteger(ty)
    ensures Xor64(Mask(ty), (Left(1, Width(ty) - s) - 1) % WORD) == Pow2(Width(ty)) - Pow2(Width(ty) - s)
  {
    hide Pow2, Xor, Left, Mask;
    var w, m := Width(ty), Width(ty) - s;
    MaskIs(ty);
    PowerFits(m);
    BelowWord(Pow2(m));
    XorMasks(w, m);
  }

  lemma BelowWord(p: nat)
    requires 0 < p < WORD
    ensures (p - 1) % WORD == p - 1
  {
  }

  lemma FillAdds(x: nat, fill: nat, w: nat, s: nat)
    requires 0 <= s <= w && x < Pow2(w - s) && fill == Pow2(w) - Pow2(w - s)
    ensures Or(x, fill) == x + fill
  {
    Pow2Add(s, w - s);
    assert (Pow2(s) - 1) * Pow2(w - s) == Pow2(s) * Pow2(w - s) - Pow2(w - s);
    OrDisjoint(x, Pow2(s) - 1, w - s);
  }

  lemma RightIsHalve(a: Word, s: nat)
    ensures Right(a, s) == Halve(a, s)
  {
  }

  lemma FilledIs(a: Word, s: nat, ty: ValueType, v: Word)
    requires IsInteger(ty) && 0 < s < Width(ty) && Halve(a, s) < Pow2(Width(ty) - s)
    requires v == Halve(a, s) + (Pow2(Width(ty)) - Pow2(Width(ty) - s))
    ensures SignFilled(a, s, ty) == Truncate(v, ty)
  {
    hide Truncate, Xor64, Left, Mask, Cut, Pow2, Or, Halve;
    FillIs(s, ty);
    FillAdds(Halve(a, s), v - Halve(a, s), Width(ty), s);
    RightIsHalve(a, s);
  }

  lemma NegativeAgrees(a: Word, s: nat, ty: ValueType)
    requires IsInteger(ty) && 0 < s < Width(ty) && a < Pow2(Width(ty)) <= 2 * a
    ensures SignFilled(a, s, ty) == Cut(Signed(a, Width(ty)) / Pow2(s), Width(ty))
  {
    hide SignFilled, Truncate, Halve, Cut;
    NegativeShift(a, Width(ty), s);
    MaskIs(ty);
    var v: Word := Halve(a, s) + (Pow2(Width(ty)) - Pow2(Width(ty) - s));
    FilledIs(a, s, ty, v);
    TruncateSmall(v, ty);
  }

  lemma PositiveAgrees(a: Word, s: nat, ty: ValueType)
    requires IsInteger(ty) && 2 * a < Pow2(Width(ty))
    ensures Cut(Signed(a, Width(ty)) / Pow2(s), Width(ty)) == Halve(a, s)
    ensures s >= Width(ty) ==> Halve(a, s) == 0
    ensures s == 0 ==> Halve(a, s) == a
    ensures Truncate(Right(a, s), ty) == Halve(a, s)
  {
    DivShrinks(a, Pow2(s));
    if s >= Width(ty) { HalveFar(a, Width(ty), s); }
    CutSmall(Halve(a, s), Width(ty));
    TruncateSmall(Halve(a, s), ty);
    DivModUnique(a, 1, a, 0);
  }

  lemma NegativeUnshifted(a: nat, w: nat)
    requires a < Pow2(w) <= 2 * a
    ensures Cut(Signed(a, w) / Pow2(0), w) == a
  {
    DivModUnique(a - Pow2(w), 1, a - Pow2(w), 0);
    ModNegative(a - Pow2(w), Pow2(w));
  }

  lemma SourceShiftAgrees(a: Word, s: nat, ty: ValueType)
    requires IsInteger(ty) && a < Pow2(Width(ty))
    ensures SourceShifted(a, s, ty) == Cut(Signed(a, Width(ty)) / Pow2(s), Width(ty))
  {
    var w := Width(ty);
    SignBit(a, ty);
    if 2 * a < Pow2(w) {
      PositiveAgrees(a, s, ty);
    } else if s >= w {
      NegativeShiftFar(a, w, s);
      MaskIs(ty);
    } else if s == 0 {
      NegativeUnshifted(a, w);
    } else {
      NegativeAgrees(a, s, ty);
    }
  }

  lemma ArithmeticAgrees(a: Word, b: Word, ty: ValueType)
    requires IsInteger(ty) && a < Pow2(Width(ty))
    ensures ShiftedRightArithmetic(a, b, ty) == Cut(Signed(a, Width(ty)) / Pow2(b % 64), Width(ty))
  {
    AmountIs(b);
    TruncateSmall(a, ty);
    SourceShiftAgrees(a, b % 64, ty);
  }

  // ----- Comparison -----

  lemma SignedLessAgrees(a: Word, b: Word, ty: ValueType)
    requires IsInteger(ty) && a < Pow2(Width(ty)) && b < Pow2(Width(ty))
    ensures SignedLess(a, b, ty) <==> Signed(a, Width(ty)) < Signed(b, Width(ty))
  {
    var w := Width(ty);
    PowerFits(w - 1);
    TruncateSmall(a, ty);
    TruncateSmall(b, ty);
    XorSign(a, w - 1);
    XorSign(b, w - 1);
  }

  /** In no bits at all shifts leave nothing and nothing is less. */
  lemma VoidHasNoBits(a: Word, b: Word)
    ensures ShiftedLeft(a, b, Void) == ShiftedRight(a, b, Void) == ShiftedRightArithmetic(a, b, Void) == 0
    ensures !SignedLess(a, b, Void)
  {
  }

  predicate Bitwise(opcode: Opcode) {
    opcode in {BitAnd, BitOr, BitXor}
  }

  lemma BitwiseAgrees(opcode: Opcode, a: Word, b: Word, ty: ValueType)
    requires Bitwise(opcode) && a < Pow2(Width(ty)) && b < Pow2(Width(ty))
    ensures Truncate(BinaryWord(opcode, a, b, ty, ty), ty) == Cut(Meaning(opcode, a, b, Width(ty)), Width(ty))
  {
    TruncateIs(BinaryWord(opcode, a, b, ty, ty), ty);
  }

  lemma CutTwice(x: int, w: nat)
    ensures Cut(Cut(x, w), w) == Cut(x, w)
  {
    CutSmall(Cut(x, w), w);
  }

  lemma ShiftAgrees(opcode: Opcode, a: Word, b: Word, ty: ValueType)
    requires opcode in {ShiftLeft, ShiftRightLogical, ShiftRightArithmetic}
    requires IsInteger(ty) && a < Pow2(Width(ty))
    ensures Truncate(BinaryWord(opcode, a, b, ty, ty), ty) == Cut(Meaning(opcode, a, b, Width(ty)), Width(ty))
  {
    TruncateIs(BinaryWord(opcode, a, b, ty, ty), ty);
    match opcode {
      case ShiftLeft => LeftAgrees(a, b, ty);
      case ShiftRightLogical => RightAgrees(a, b, ty);
      case ShiftRightArithmetic => ArithmeticAgrees(a, b, ty);
    }
  }

  lemma ComparesAgree(opcode: Opcode, a: Word, b: Word, ty: ValueType)
    requires Compares(opcode) && IsInteger(ty) && a < Pow2(Width(ty)) && b < Pow2(Width(ty))
    ensures Truncate(BinaryWord(opcode, a, b, Bool, ty), Bool) == Cut(Meaning(opcode, a, b, Width(ty)), Width(Bool))
  {
    hide SignedLess, Signed, Truncate, Cut, Pow2;
    SignedLessAgrees(a, b, ty);
    TruncateIs(BinaryWord(opcode, a, b, Bool, ty), Bool);
  }

  lemma RingAgrees(opcode: Opcode, a: Word, b: Word, ty: ValueType)
    requires opcode in {Add, Subtract, Multiply}
    ensures Truncate(BinaryWord(opcode, a, b, ty, ty), ty) == Cut(Meaning(opcode, a, b, Width(ty)), Width(ty))
  {
    hide Truncate, Cut;
    var x := if opcode == Add then a + b else if opcode == Subtract then a - b else a * b;
    CutWord(x, ty);
    CutTwice(x, Width(ty));
  }

  /** The machine's two-operand arithmetic is the mathematical one, cut to the
      result's width. */
  lemma BinaryAgrees(opcode: Opcode, a: Word, b: Word, ty: ValueType, operandTy: ValueType)
    requires Binary(opcode) && IsInteger(operandTy)
    requires if Compares(opcode) then ty == Bool else ty == operandTy
    requires a < Pow2(Width(operandTy)) && b < Pow2(Width(operandTy))
    ensures Truncate(BinaryWord(opcode, a, b, ty, operandTy), ty) == Cut(Meaning(opcode, a, b, Width(operandTy)), Width(ty))
  {
    hide BinaryWord, Meaning, Truncate, Cut, Pow2;
    if Compares(opcode) {
      ComparesAgree(opcode, a, b, operandTy);
    } else if Bitwise(opcode) {
      BitwiseAgrees(opcode, a, b, ty);
    } else if opcode in {Add, Subtract, Multiply} {
      RingAgrees(opcode, a, b, ty);
    } else {
      ShiftAgrees(opcode, a, b, ty);
    }
  }

  lemma NotAgrees(a: Word, ty: ValueType)
    ensures Truncate(MAX_WORD - a, ty) == Cut(-1 - a, Width(ty))
  {
    ModNegative(-1 - a, WORD);
    CutWord(-1 - a, ty);
  }
}
