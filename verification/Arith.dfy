/** Fixed-width integer arithmetic shared by the models of the code generator. */
module Arith {

  function Pow2(n: nat): (p: nat)
    ensures p >= 1
  {
    if n == 0 then 1 else 2 * Pow2(n - 1)
  }

  lemma {:induction false} Pow2Add(a: nat, b: nat)
    ensures Pow2(a + b) == Pow2(a) * Pow2(b)
    decreases a
  {
    if a == 0 {
    } else {
      Pow2Add(a - 1, b);
      MulAssoc(2, Pow2(a - 1), Pow2(b));
    }
  }

  lemma MulAssoc(a: int, b: int, c: int)
    ensures (a * b) * c == a * (b * c)
  {
  }

  /** The quotient and the remainder of a division are the only pair of their kind. */
  lemma {:induction false} DivModUnique(q: int, m: int, r: int)
    requires 0 <= r < m
    ensures (q * m + r) / m == q && (q * m + r) % m == r
  {
    var x := q * m + r;
    var d := x / m - q;
    assert x == (x / m) * m + x % m;
    assert d * m == r - x % m;
    MulSmall(d, m);
  }

  lemma MulAtLeast(d: int, m: int)
    requires d >= 1 && m >= 0
    ensures d * m >= m
  {
    assert (d - 1) * m >= 0;
  }

  /** The only multiple of `m` strictly between `-m` and `m` is zero. */
  lemma MulSmall(d: int, m: int)
    requires m > 0 && -m < d * m < m
    ensures d == 0
  {
    if d >= 1 {
      MulAtLeast(d, m);
      assert false;
    } else if d <= -1 {
      MulAtLeast(-d, m);
      assert false;
    }
  }

  /** Adding a multiple of the modulus does not change the remainder. */
  lemma ModShift(x: int, k: int, m: int)
    requires m > 0
    ensures (x + k * m) % m == x % m
  {
    assert x + k * m == (x / m + k) * m + x % m;
    DivModUnique(x / m + k, m, x % m);
  }

  lemma ModAdd(x: int, y: int, m: int)
    requires m > 0
    ensures (x % m + y % m) % m == (x + y) % m
  {
    assert x + y == x % m + y % m + (x / m + y / m) * m;
    ModShift(x % m + y % m, x / m + y / m, m);
  }

  lemma ModSub(x: int, y: int, m: int)
    requires m > 0
    ensures (x % m - y % m) % m == (x - y) % m
  {
    assert x - y == x % m - y % m + (x / m - y / m) * m;
    ModShift(x % m - y % m, x / m - y / m, m);
  }

  lemma ModMul(x: int, y: int, m: int)
    requires m > 0
    ensures (x % m * (y % m)) % m == (x * y) % m
  {
    var a, p := x / m, x % m;
    var b, q := y / m, y % m;
    assert x == a * m + p && y == b * m + q;
    assert x * y == p * q + (a * m * b + a * q + b * p) * m by {
      assert x * y == (a * m + p) * (b * m + q);
      assert (a * m + p) * (b * m + q) == a * m * (b * m) + a * m * q + p * (b * m) + p * q;
    }
    ModShift(p * q, a * m * b + a * q + b * p, m);
  }

  lemma ModOfMod(x: int, m: int, k: int)
    requires m > 0 && k > 0
    ensures (x % (m * k)) % m == x % m
  {
    var n := m * k;
    assert n > 0;
    var q := x / n;
    assert x == n * q + x % n;
    assert n * q == (k * q) * m;
    assert x % n == x + (-(k * q)) * m;
    ModShift(x, -(k * q), m);
  }

  /** The two's complement reading of the low `bits` bits of `n`. */
  function Wrap(n: int, bits: nat, signed: bool): (r: int)
    requires bits >= 1
    ensures InRange(r, bits, signed)
    ensures r % Pow2(bits) == n % Pow2(bits)
  {
    var m := n % Pow2(bits);
    HalfPow2(bits);
    WrapPattern(n, Pow2(bits));
    if signed && m >= Pow2(bits - 1) then m - Pow2(bits) else m
  }

  lemma WrapPattern(n: int, m: int)
    requires m > 0
    ensures (n % m) % m == n % m && (n % m - m) % m == n % m
  {
    ModShift(n % m, 0, m);
    ModShift(n % m, -1, m);
  }

  predicate InRange(n: int, bits: nat, signed: bool)
    requires bits >= 1
  {
    if signed then -(Pow2(bits - 1) as int) <= n < Pow2(bits - 1) else 0 <= n < Pow2(bits)
  }

  lemma HalfPow2(bits: nat)
    requires bits >= 1
    ensures Pow2(bits) == 2 * Pow2(bits - 1)
  {
  }

  lemma CongruentAndClose(x: int, y: int, m: int)
    requires m > 0 && -m < x - y < m && x % m == y % m
    ensures x == y
  {
    var d := x / m - y / m;
    assert x == (x / m) * m + x % m && y == (y / m) * m + y % m;
    assert x - y == d * m;
    MulSmall(d, m);
  }

  /** Two values of one type with the same low bits are the same value. */
  lemma PatternInjective(x: int, y: int, bits: nat, signed: bool)
    requires bits >= 1 && InRange(x, bits, signed) && InRange(y, bits, signed)
    requires x % Pow2(bits) == y % Pow2(bits)
    ensures x == y
  {
    HalfPow2(bits);
    CongruentAndClose(x, y, Pow2(bits));
  }

  function Abs(x: int): nat {
    if x < 0 then -x else x
  }

  /** Division and remainder that truncate toward zero. */
  function TruncDiv(x: int, y: int): int
    requires y != 0
  {
    var q := Abs(x) / Abs(y);
    if (x < 0) == (y < 0) then q else -q
  }

  function TruncRem(x: int, y: int): int
    requires y != 0
  {
    x - y * TruncDiv(x, y)
  }

  /** The remainder is smaller than the divisor and has the sign of the dividend, which fixes both results. */
  predicate Truncates(x: int, y: int, q: int, r: int)
    requires y != 0
  {
    x == q * y + r && Abs(r) < Abs(y) && (r == 0 || (r < 0) == (x < 0))
  }

  lemma TruncIs(x: int, y: int)
    requires y != 0
    ensures Truncates(x, y, TruncDiv(x, y), TruncRem(x, y))
  {
    var a: int := Abs(x);
    var b: int := Abs(y);
    assert a == a / b * b + a % b;
    MulSigns(a / b, b);
  }

  lemma MulSigns(q: int, b: int)
    ensures (-q) * b == -(q * b) == q * (-b) && (-q) * (-b) == q * b
  {
  }

  lemma TruncUnique(x: int, y: int, q: int, r: int)
    requires y != 0 && Truncates(x, y, q, r)
    ensures q == TruncDiv(x, y) && r == TruncRem(x, y)
  {
    TruncIs(x, y);
    hide TruncDiv, TruncRem;
    var t := TruncDiv(x, y);
    MulSub(q, t, y);
    MulSigns(q - t, y);
    if y < 0 {
      MulSmall(q - t, -y);
    } else {
      MulSmall(q - t, y);
    }
  }

  lemma MulSub(q: int, t: int, y: int)
    ensures (q - t) * y == q * y - t * y
  {
  }

  function Max(a: nat, b: nat): nat {
    if a < b then b else a
  }

  function Min(a: nat, b: nat): nat {
    if a < b then a else b
  }

  /** Bitwise conjunction of two unsigned patterns. */
  function BitAnd(a: nat, b: nat): nat
    decreases a
  {
    if a == 0 || b == 0 then 0 else 2 * BitAnd(a / 2, b / 2) + if a % 2 == 1 && b % 2 == 1 then 1 else 0
  }

  lemma ModHalf(a: nat, p: nat)
    requires p > 0
    ensures a % (2 * p) == 2 * ((a / 2) % p) + a % 2
  {
    var q, r := (a / 2) / p, (a / 2) % p;
    assert a == 2 * (a / 2) + a % 2 && a / 2 == q * p + r;
    assert a == q * (2 * p) + (2 * r + a % 2);
    DivModUnique(q, 2 * p, 2 * r + a % 2);
  }

  /** A mask of `n` ones keeps the low `n` bits. */
  lemma {:induction false} MaskIsMod(a: nat, n: nat)
    ensures BitAnd(a, Pow2(n) - 1) == a % Pow2(n)
    decreases n
  {
    hide *;
    if a == 0 {
      MaskOfZero(Pow2(n));
    } else if n == 0 {
      NoMask(a);
    } else {
      Pow2Twice(n);
      MaskIsMod(a / 2, n - 1);
      ModHalf(a, Pow2(n - 1));
      HalveMask(a, Pow2(n - 1));
    }
  }

  lemma MaskOfZero(m: nat)
    requires m >= 1
    ensures BitAnd(0, m - 1) == 0 % m
  {
    DivModUnique(0, m, 0);
  }

  lemma NoMask(a: nat)
    ensures BitAnd(a, Pow2(0) - 1) == a % Pow2(0)
  {
    assert Pow2(0) == 1;
  }

  lemma Pow2Twice(n: nat)
    requires n > 0
    ensures Pow2(n) == 2 * Pow2(n - 1)
  {
  }

  lemma HalveMask(a: nat, p: nat)
    requires a > 0 && p > 0
    ensures BitAnd(a, 2 * p - 1) == 2 * BitAnd(a / 2, p - 1) + a % 2
  {
    assert (2 * p - 1) / 2 == p - 1;
  }
}
