/**
 Integer operators on mathematical values of a type against the instructions on bit patterns that the
 generator selects for them.
 */
module IrArith {
  import opened Wrappers
  import opened Arith
  import opened Mir
  import opened BlockGraph
  import opened EmitFn

  /** The bit pattern of a value, and the signed reading back. */
  lemma SignedOfPattern(x: int, w: Width)
    requires InRange(x, w, true)
    ensures Signed(w, x % Pow2(w)) == x
  {
    WrapPattern(x, Pow2(w));
    PatternInjective(x, Signed(w, x % Pow2(w)), w, true);
  }

  lemma UnsignedPattern(x: int, w: Width)
    requires InRange(x, w, false)
    ensures x % Pow2(w) == x
  {
    DivModUnique(0, Pow2(w), x);
  }

  /** A non-negative value of a signed type is its own pattern. */
  lemma SmallPattern(x: int, w: Width, signed: bool)
    requires 0 <= x && InRange(x, w, signed)
    ensures x % Pow2(w) == x
  {
    HalfPow2(w);
    DivModUnique(0, Pow2(w), x);
  }

  lemma {:induction false} WidthBelowPow2(w: nat)
    ensures w < Pow2(w)
  {
    if w > 0 {
      WidthBelowPow2(w - 1);
    }
  }

  lemma {:induction false} TruncDivNonNeg(x: int, y: int)
    requires 0 <= x && 0 < y
    ensures TruncDiv(x, y) == x / y && TruncRem(x, y) == x % y
  {
    assert x == y * (x / y) + x % y;
  }

  /** An instruction applied to the patterns of two values yields the pattern of the result. */
  lemma IrBinOk(op: BinOp, w: Width, signed: bool, x: int, y: int)
    requires !op.IsComparison() && !op.LogicalAnd? && !op.LogicalOr?
    requires InRange(x, w, signed) && InRange(y, w, signed) && IntOp(op, w, signed, x, y).Some?
    ensures EvalIr(IrBin(op, signed), w, x % Pow2(w), y % Pow2(w)) == Some(IntOp(op, w, signed, x, y).value % Pow2(w))
  {
    hide EvalIr, IntOp, InRange;
    match op {
      case Add => RingOk(op, w, signed, x, y);
      case Sub => RingOk(op, w, signed, x, y);
      case Mul => RingOk(op, w, signed, x, y);
      case Div => DivOk(w, signed, x, y);
      case Mod => RemOk(w, signed, x, y);
      case Shl => ShlOk(w, signed, x, y);
      case Shr => ShrOk(w, signed, x, y);
      case BitAnd => BitsOk(op, w, signed, x, y);
      case BitOr => BitsOk(op, w, signed, x, y);
      case BitXor => BitsOk(op, w, signed, x, y);
    }
  }

  lemma RingOk(op: BinOp, w: Width, signed: bool, x: int, y: int)
    requires op.Add? || op.Sub? || op.Mul?
    ensures EvalIr(IrBin(op, signed), w, x % Pow2(w), y % Pow2(w)) == Some(IntOp(op, w, signed, x, y).value % Pow2(w))
  {
    hide Signed, TruncDiv, TruncRem, BitOp;
    ModAdd(x, y, Pow2(w));
    ModSub(x, y, Pow2(w));
    ModMul(x, y, Pow2(w));
  }

  lemma ShlOk(w: Width, signed: bool, x: int, y: int)
    requires InRange(y, w, signed) && IntOp(Shl, w, signed, x, y).Some?
    ensures EvalIr(IrBin(Shl, signed), w, x % Pow2(w), y % Pow2(w)) == Some(IntOp(Shl, w, signed, x, y).value % Pow2(w))
  {
    hide Signed, TruncDiv, TruncRem, BitOp;
    ShiftAmount(w, signed, y);
    ModScale(x, Pow2(y), Pow2(w));
  }

  lemma ModScale(x: int, k: int, m: int)
    requires m > 0
    ensures ((x % m) * k) % m == (x * k) % m
  {
    ModMul(x, k, m);
    ModMul(x % m, k, m);
    WrapPattern(x, m);
  }

  lemma BitsOk(op: BinOp, w: Width, signed: bool, x: int, y: int)
    requires op.BitAnd? || op.BitOr? || op.BitXor?
    ensures EvalIr(IrBin(op, signed), w, x % Pow2(w), y % Pow2(w)) == Some(IntOp(op, w, signed, x, y).value % Pow2(w))
  {
    hide Signed, TruncDiv, TruncRem, BitOp;
    DivModUnique(0, Pow2(w), BitOp(op, w, x % Pow2(w), y % Pow2(w)));
  }

  lemma ShiftAmount(w: Width, signed: bool, y: int)
    requires 0 <= y < w && InRange(y, w, signed)
    ensures y % Pow2(w) == y
  {
    SmallPattern(y, w, signed);
  }

  lemma DivOk(w: Width, signed: bool, x: int, y: int)
    requires InRange(x, w, signed) && InRange(y, w, signed) && IntOp(Div, w, signed, x, y).Some?
    ensures EvalIr(IrBin(Div, signed), w, x % Pow2(w), y % Pow2(w)) == Some(IntOp(Div, w, signed, x, y).value % Pow2(w))
  {
    if signed {
      SignedOfPattern(x, w);
      SignedOfPattern(y, w);
    } else {
      UnsignedPattern(x, w);
      UnsignedPattern(y, w);
      TruncDivNonNeg(x, y);
      UnsignedPattern(x / y, w);
    }
  }

  lemma RemOk(w: Width, signed: bool, x: int, y: int)
    requires InRange(x, w, signed) && InRange(y, w, signed) && IntOp(Mod, w, signed, x, y).Some?
    ensures EvalIr(IrBin(Mod, signed), w, x % Pow2(w), y % Pow2(w)) == Some(IntOp(Mod, w, signed, x, y).value % Pow2(w))
  {
    hide Pow2, InRange, Signed, TruncDiv;
    if signed {
      SignedOfPattern(x, w);
      SignedOfPattern(y, w);
    } else {
      UnsignedPattern(x, w);
      UnsignedPattern(y, w);
      TruncDivNonNeg(x, y);
      UnsignedPattern(x % y, w);
    }
  }

  lemma ShrOk(w: Width, signed: bool, x: int, y: int)
    requires InRange(x, w, signed) && InRange(y, w, signed) && IntOp(Shr, w, signed, x, y).Some?
    ensures EvalIr(IrBin(Shr, signed), w, x % Pow2(w), y % Pow2(w)) == Some(IntOp(Shr, w, signed, x, y).value % Pow2(w))
  {
    ShiftAmount(w, signed, y);
    hide Pow2, InRange, Signed;
    if signed {
      SignedOfPattern(x, w);
    } else {
      UnsignedShift(w, x, y);
    }
  }

  lemma UnsignedShift(w: Width, x: int, y: nat)
    requires InRange(x, w, false)
    ensures x % Pow2(w) / Pow2(y) == x / Pow2(y) % Pow2(w)
  {
    UnsignedPattern(x, w);
    ShrBound(x, Pow2(y));
    UnsignedPattern(x / Pow2(y), w);
  }

  /** A compare of patterns with the predicate for the type is the comparison of the values. */
  lemma IrPredOk(op: BinOp, w: Width, signed: bool, x: int, y: int)
    requires op.IsComparison() && InRange(x, w, signed) && InRange(y, w, signed)
    ensures EvalPred(IrPred(op, signed), w, x % Pow2(w), y % Pow2(w)) == Compare(op, x, y)
  {
    hide *;
    if x % Pow2(w) == y % Pow2(w) {
      PatternInjective(x, y, w, signed);
    }
    if signed {
      SignedOfPattern(x, w);
      SignedOfPattern(y, w);
      PredSigned(op, w, x % Pow2(w), y % Pow2(w), x, y);
    } else {
      UnsignedPattern(x, w);
      UnsignedPattern(y, w);
      PredUnsigned(op, w, x % Pow2(w), y % Pow2(w));
    }
  }

  lemma PredSigned(op: BinOp, w: Width, p: nat, q: nat, x: int, y: int)
    requires op.IsComparison() && Signed(w, p) == x && Signed(w, q) == y && (p == q <==> x == y)
    ensures EvalPred(IrPred(op, true), w, p, q) == Compare(op, x, y)
  {
    hide Signed;
  }

  lemma PredUnsigned(op: BinOp, w: Width, p: nat, q: nat)
    requires op.IsComparison()
    ensures EvalPred(IrPred(op, false), w, p, q) == Compare(op, p, q)
  {
    hide Signed;
  }

  /** Conversions: the pattern of the converted value is the resized pattern. */
  lemma ResizeOk(src: Ty, dst: Ty, x: int)
    requires src.Int? && dst.Int? && InRange(x, src.bits, src.signed)
    ensures EvalResize(ResizeKind(src, dst), src.bits, dst.bits, x % Pow2(src.bits)) == x % Pow2(dst.bits)
  {
    var v, w := src.bits, dst.bits;
    if v == w {
      WrapPattern(x, Pow2(v));
    } else if v < w {
      if src.signed {
        SignedOfPattern(x, v);
      } else {
        UnsignedPattern(x, v);
      }
    } else {
      Pow2Add(w, v - w);
      ModOfMod(x, Pow2(w), Pow2(v - w));
    }
  }

  /** Negation and complement on patterns. */
  lemma NegOk(w: Width, x: int)
    ensures EvalIr(ISub, w, 0, x % Pow2(w)) == Some((-x) % Pow2(w))
  {
    ModSub(0, x, Pow2(w));
    DivModUnique(0, Pow2(w), 0);
  }

  lemma {:induction false} XorOnes(w: nat, n: nat)
    requires n < Pow2(w)
    ensures BitOp(BitXor, w, n, Pow2(w) - 1) == Pow2(w) - 1 - n
  {
    if w > 0 {
      var m := Pow2(w) - 1;
      assert m % 2 == 1 && m / 2 == Pow2(w - 1) - 1;
      XorOnes(w - 1, n / 2);
    }
  }

  lemma XorIs(w: Width, x: nat, y: nat)
    ensures EvalIr(IXor, w, x, y) == Some(BitOp(BitXor, w, x, y))
  {
  }

  lemma NotOk(w: Width, x: int)
    ensures EvalIr(IXor, w, x % Pow2(w), Pow2(w) - 1) == Some((-x - 1) % Pow2(w))
  {
    hide *;
    XorIs(w, x % Pow2(w), Pow2(w) - 1);
    XorOnes(w, x % Pow2(w));
    NegativeRest(x, Pow2(w));
  }

  /** The remainder of the complement is the complement of the remainder. */
  lemma NegativeRest(x: int, m: int)
    requires m > 0
    ensures (-x - 1) % m == m - 1 - x % m
  {
    var q, r := x / m, x % m;
    assert x == m * q + r;
    assert (-q - 1) * m == -(m * q) - m;
    DivModUnique(-q - 1, m, m - 1 - r);
  }

  /** Booleans: the same instructions on one bit. */
  lemma BoolBinOk(op: BinOp, a: bool, b: bool)
    requires op.LogicalAnd? || op.LogicalOr? || op.BitAnd? || op.BitOr? || op.BitXor?
    ensures EvalIr(IrBin(op, false), 1, if a then 1 else 0, if b then 1 else 0) ==
              Some(if BoolOp(op, a, b) then 1 else 0)
  {
  }

  lemma BoolPredOk(op: BinOp, a: bool, b: bool)
    requires op.IsComparison()
    ensures EvalPred(IrPred(op, false), 1, if a then 1 else 0, if b then 1 else 0) == BoolOp(op, a, b)
  {
  }

  /** A case label read at the type of the discriminant selects the value with its pattern. */
  lemma CaseOk(w: Width, signed: bool, v: nat, x: int)
    requires InRange(x, w, signed)
    ensures x % Pow2(w) == (v % Pow2(64)) % Pow2(w) <==> x == Wrap(v, w, signed)
  {
    Pow2Add(w, 64 - w);
    ModOfMod(v, Pow2(w), Pow2(64 - w));
    if x % Pow2(w) == v % Pow2(w) {
      PatternInjective(x, Wrap(v, w, signed), w, signed);
    }
  }

  // ----- bits -----

  predicate Bit(n: nat, i: nat) {
    if i == 0 then n % 2 == 1 else Bit(n / 2, i - 1)
  }

  /** The bitwise operations work bit by bit on the low bits. */
  lemma BitwiseIs(w: nat, a: nat, b: nat, i: nat)
    requires i < w
    ensures Bit(BitOp(BitAnd, w, a, b), i) <==> Bit(a, i) && Bit(b, i)
    ensures Bit(BitOp(BitOr, w, a, b), i) <==> Bit(a, i) || Bit(b, i)
    ensures Bit(BitOp(BitXor, w, a, b), i) <==> Bit(a, i) != Bit(b, i)
  {
    hide BitOp, Bit;
    BitOfOp(BitAnd, w, a, b, i);
    BitOfOp(BitOr, w, a, b, i);
    BitOfOp(BitXor, w, a, b, i);
  }

  lemma {:induction false} BitOfOp(op: BinOp, w: nat, a: nat, b: nat, i: nat)
    requires i < w
    ensures Bit(BitOp(op, w, a, b), i) <==> BitOf(op, if Bit(a, i) then 1 else 0, if Bit(b, i) then 1 else 0) == 1
    decreases i
  {
    LowBit(op, w, a, b);
    hide BitOp, BitOf;
    if i > 0 {
      BitOfOp(op, w - 1, a / 2, b / 2, i - 1);
    }
  }

  lemma LowBit(op: BinOp, w: nat, a: nat, b: nat)
    requires w > 0
    ensures BitOp(op, w, a, b) % 2 == BitOf(op, a % 2, b % 2)
    ensures BitOp(op, w, a, b) / 2 == BitOp(op, w - 1, a / 2, b / 2)
  {
    hide BitOf;
  }
}
