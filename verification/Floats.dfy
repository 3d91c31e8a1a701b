/**
 Floating-point numbers as bit patterns: a sign bit, then an exponent and a fraction that together read
 as a magnitude.  Only comparison and negation are needed here; they never round.
 */
module Floats {
  import opened Arith

  /** Width and length of the fraction of the two formats. */
  function FloatBits(double: bool): nat {
    if double then 64 else 32
  }

  function FracBits(double: bool): nat {
    if double then 52 else 23
  }

  /** The weight of the sign bit. */
  function SignBit(double: bool): (h: nat)
    ensures h >= 1 && 2 * h == Pow2(FloatBits(double))
  {
    Pow2(FloatBits(double) - 1)
  }

  predicate IsFloat(double: bool, n: int) {
    0 <= n < Pow2(FloatBits(double))
  }

  function Magnitude(double: bool, n: nat): (m: nat)
    requires IsFloat(double, n)
    ensures m < SignBit(double) && (n == m || n == SignBit(double) + m)
  {
    if n >= SignBit(double) then n - SignBit(double) else n
  }

  /** Above infinity, whose exponent is all ones and whose fraction is zero. */
  predicate IsNaN(double: bool, n: nat)
    requires IsFloat(double, n)
  {
    Magnitude(double, n) > SignBit(double) - Pow2(FracBits(double))
  }

  function Key(double: bool, n: nat): int
    requires IsFloat(double, n)
  {
    if n >= SignBit(double) then 0 - Magnitude(double, n) else Magnitude(double, n)
  }

  /** Ordered equality. */
  predicate FloatEq(double: bool, x: nat, y: nat)
    requires IsFloat(double, x) && IsFloat(double, y)
  {
    !IsNaN(double, x) && !IsNaN(double, y) && Key(double, x) == Key(double, y)
  }

  function FloatNeg(double: bool, n: nat): (r: nat)
    requires IsFloat(double, n)
    ensures IsFloat(double, r)
    ensures Key(double, r) == -Key(double, n) && (IsNaN(double, r) <==> IsNaN(double, n))
    ensures Magnitude(double, r) == Magnitude(double, n) && r != n
  {
    if n >= SignBit(double) then n - SignBit(double) else n + SignBit(double)
  }

  /** A NaN is a pattern whose exponent is all ones and whose fraction is not zero. */
  lemma NaNIs(double: bool, n: nat)
    requires IsFloat(double, n)
    ensures var m, p := Magnitude(double, n), Pow2(FracBits(double));
            IsNaN(double, n) <==> m / p == (if double then 2047 else 255) && m % p != 0
  {
    var m, p, ones := Magnitude(double, n), Pow2(FracBits(double)), if double then 2047 else 255;
    SignIs(double);
    hide Pow2, Magnitude, SignBit;
    var q, f := RowOf(m, p);
    DivModUnique(q, p, f);
    Spread(ones, q, p);
    if q < ones {
      MulAtLeast(ones - q, p);
    } else if q > ones {
      MulAtLeast(q - ones, p);
    }
  }

  lemma Spread(a: int, b: int, p: int)
    ensures (a - b) * p == a * p - b * p && (b - a) * p == b * p - a * p && (a + 1) * p == a * p + p
  {
  }

  lemma SignIs(double: bool)
    ensures SignBit(double) == ((if double then 2047 else 255) + 1) * Pow2(FracBits(double))
  {
    EightAndEleven();
    Pow2Add(8, 23);
    Pow2Add(11, 52);
    hide Pow2;
  }

  lemma EightAndEleven()
    ensures Pow2(8) == 256 && Pow2(11) == 2048
  {
    assert Pow2(8) == 256;
  }

  /** Equality of patterns, except that a NaN equals nothing and the two zeros are equal. */
  lemma FloatEqIs(double: bool, x: nat, y: nat)
    requires IsFloat(double, x) && IsFloat(double, y)
    ensures FloatEq(double, x, y) <==>
            && !IsNaN(double, x) && !IsNaN(double, y)
            && (x == y || (Magnitude(double, x) == 0 && Magnitude(double, y) == 0))
  {
  }

  // ----- the number behind a pattern -----

  /** The number that a magnitude stands for, in units of the smallest positive number of the format:
      the fraction alone for exponent zero, otherwise with a leading one and scaled by the exponent. */
  function Units(double: bool, m: nat): nat {
    var p := Pow2(FracBits(double));
    if m < p then m else (p + m % p) * Pow2(m / p - 1)
  }

  function Number(double: bool, n: nat): int
    requires IsFloat(double, n)
  {
    if n >= SignBit(double) then 0 - Units(double, Magnitude(double, n)) else Units(double, Magnitude(double, n))
  }

  /** Patterns in order of magnitude are numbers in order. */
  lemma {:induction false} UnitsRise(double: bool, a: nat, b: nat)
    requires a < b
    ensures Units(double, a) < Units(double, b)
    decreases b - a
  {
    hide Units, Pow2, FracBits;
    UnitsNext(double, b - 1);
    if a < b - 1 {
      UnitsRise(double, a, b - 1);
    }
  }

  lemma UnitsNext(double: bool, m: nat)
    ensures Units(double, m) < Units(double, m + 1)
  {
    hide *;
    var p := Pow2(FracBits(double));
    var q, f := RowOf(m, p);
    if f + 1 < p {
      NextInRow(double, q, f);
    } else {
      assert q * p + (p - 1) + 1 == (q + 1) * p;
      NextRow(double, q);
    }
  }

  lemma RowOf(m: nat, p: nat) returns (q: nat, f: nat)
    requires p >= 1
    ensures f < p && m == q * p + f
  {
    q, f := m / p, m % p;
  }

  lemma NextInRow(double: bool, q: nat, f: nat)
    requires f + 1 < Pow2(FracBits(double))
    ensures var p := Pow2(FracBits(double)); Units(double, q * p + f) < Units(double, q * p + (f + 1))
  {
    hide *;
    UnitsAt(double, q, f);
    UnitsAt(double, q, f + 1);
    if q >= 1 {
      Scaled(Pow2(FracBits(double)) + f, Pow2(q - 1));
    }
  }

  lemma NextRow(double: bool, q: nat)
    ensures var p := Pow2(FracBits(double)); Units(double, q * p + (p - 1)) < Units(double, (q + 1) * p + 0)
  {
    hide *;
    var p := Pow2(FracBits(double));
    UnitsAt(double, q, p - 1);
    UnitsAt(double, q + 1, 0);
    if q >= 1 {
      Doubled(p, q - 1);
      Scaled(p + (p - 1), Pow2(q - 1));
    } else {
      OnePow2(p);
    }
  }

  lemma Doubled(p: nat, exp: nat)
    ensures (p + 0) * Pow2(exp + 1) == (p + (p - 1) + 1) * Pow2(exp)
  {
    assert Pow2(exp + 1) == 2 * Pow2(exp);
  }

  lemma Scaled(a: int, k: int)
    requires k >= 1
    ensures a * k < (a + 1) * k
  {
  }

  lemma OnePow2(p: int)
    ensures (p + 0) * Pow2(0) == p
  {
  }

  /** Row by row: the exponent is the quotient, the fraction the remainder. */
  lemma UnitsAt(double: bool, q: nat, f: nat)
    requires f < Pow2(FracBits(double))
    ensures var p := Pow2(FracBits(double));
            Units(double, q * p + f) == if q == 0 then f else (p + f) * Pow2(q - 1)
  {
    var p := Pow2(FracBits(double));
    hide FracBits, Pow2;
    DivModUnique(q, p, f);
    if q >= 1 {
      MulAtLeast(q, p);
    }
  }

  /** Comparing patterns by key is comparing the numbers they stand for. */
  lemma KeyIsNumber(double: bool, x: nat, y: nat)
    requires IsFloat(double, x) && IsFloat(double, y)
    ensures Key(double, x) < Key(double, y) <==> Number(double, x) < Number(double, y)
    ensures Key(double, x) == Key(double, y) <==> Number(double, x) == Number(double, y)
  {
    var m, n := Magnitude(double, x), Magnitude(double, y);
    UnitsOrder(double, m, n);
    UnitsOrder(double, 0, m);
    UnitsOrder(double, 0, n);
    assert Units(double, 0) == 0;
    hide Units, Magnitude, Pow2;
  }

  lemma UnitsOrder(double: bool, a: nat, b: nat)
    ensures a < b <==> Units(double, a) < Units(double, b)
    ensures a == b <==> Units(double, a) == Units(double, b)
  {
    if a < b {
      UnitsRise(double, a, b);
    } else if b < a {
      UnitsRise(double, b, a);
    }
  }
}
