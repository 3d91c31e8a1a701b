/**
 Binary formatting of integers: the code emitted to fill a buffer at run time, the folding of constants,
 and the digits that both must show.
 */
module BinFormat {
  import opened Arith

  type Char = b: nat | b < 256

  const ZERO: Char := 48
  const NUL: Char := 0

  function Digit(bit: nat): (c: Char)
    requires bit < 2
  {
    ZERO + bit
  }

  /** The digits of a number, most significant first, without leading zeros. */
  function Digits(v: nat): (s: seq<Char>)
    ensures |s| >= 1
  {
    if v < 2 then [Digit(v)] else Digits(v / 2) + [Digit(v % 2)]
  }

  /** The number that a row of digits shows. */
  function Decode(s: seq<Char>): nat {
    if s == [] then 0 else 2 * Decode(s[..|s| - 1]) + if s[|s| - 1] == ZERO then 0 else 1
  }

  lemma {:induction false} DecodeDigits(v: nat)
    ensures Decode(Digits(v)) == v
  {
    if v < 2 {
      assert Digits(v)[..0] == [];
    } else {
      var front, last := Digits(v / 2), Digit(v % 2);
      assert (front + [last])[..|front|] == front;
      DecodeDigits(v / 2);
    }
  }

  /** Only zero itself is shown with a leading zero. */
  lemma {:induction false} NoLeadingZero(v: nat)
    ensures Digits(v)[0] == ZERO <==> v == 0
    ensures v == 0 ==> Digits(v) == [ZERO]
    ensures forall i :: 0 <= i < |Digits(v)| ==> Digits(v)[i] != NUL
  {
    if v >= 2 {
      NoLeadingZero(v / 2);
    }
  }

  // ----- the constant path -----

  /** A constant is cut to 64 bits and masked to the width of its type before it is rendered. */
  function ConstantText(n: int, bits: nat): seq<Char>
    requires 1 <= bits <= 64
  {
    var mask := if bits >= 64 then Pow2(64) - 1 else Pow2(bits) - 1;
    Digits(BitAnd(n % Pow2(64), mask))
  }

  /** The mask keeps the value modulo the width, also of a negative constant. */
  lemma ConstantTextIs(n: int, bits: nat)
    requires 1 <= bits <= 64
    ensures ConstantText(n, bits) == Digits(n % Pow2(bits))
  {
    hide Pow2, Digits, BitAnd;
    MaskIsMod(n % Pow2(64), bits);
    Pow2Add(bits, 64 - bits);
    ModOfMod(n, Pow2(bits), Pow2(64 - bits));
  }

  // ----- the emitted code -----

  /** The digit at position `i` of a number written with `bits` digits. */
  function BitAt(v: nat, bits: nat, i: nat): (c: Char)
    requires i < bits
    ensures c == ZERO || c == ZERO + 1
  {
    Digit(v / Pow2(bits - 1 - i) % 2)
  }

  lemma {:induction false} HalfBit(v: nat, bits: nat, i: nat)
    requires i + 1 < bits
    ensures BitAt(v, bits, i) == BitAt(v / 2, bits - 1, i)
  {
    var p := Pow2(bits - 2 - i);
    assert Pow2(bits - 1 - i) == 2 * p;
    DivTwice(v, p);
  }

  lemma DivTwice(v: nat, p: nat)
    requires p > 0
    ensures v / (2 * p) == v / 2 / p
  {
    var q, r := v / 2 / p, v / 2 % p;
    assert v == q * (2 * p) + (2 * r + v % 2);
    DivModUnique(q, 2 * p, 2 * r + v % 2);
  }

  function Padded(v: nat, bits: nat): (s: seq<Char>)
    ensures |s| == bits
  {
    seq(bits, i requires 0 <= i < bits => BitAt(v, bits, i))
  }

  lemma PaddedStep(v: nat, bits: nat)
    requires bits >= 1
    ensures Padded(v, bits) == Padded(v / 2, bits - 1) + [Digit(v % 2)]
  {
    var s, t := Padded(v, bits), Padded(v / 2, bits - 1) + [Digit(v % 2)];
    forall i | 0 <= i < bits ensures s[i] == t[i] {
      if i + 1 < bits {
        HalfBit(v, bits, i);
      } else {
        assert Pow2(0) == 1;
      }
    }
  }

  /** What is left of the padded digits from the first one on is the number itself. */
  lemma {:induction false} Unpad(v: nat, bits: nat, start: nat)
    requires start <= bits && v < Pow2(bits)
    requires forall i :: 0 <= i < start ==> Padded(v, bits)[i] == ZERO
    requires start < bits ==> Padded(v, bits)[start] != ZERO
    ensures start == bits ==> v == 0
    ensures start < bits ==> v > 0 && Padded(v, bits)[start..] == Digits(v)
    decreases bits
  {
    if bits > 0 {
      PaddedStep(v, bits);
      hide Padded;
      var front := Padded(v / 2, bits - 1);
      assert Padded(v, bits)[bits - 1] == Digit(v % 2);
      forall i | 0 <= i < bits - 1 ensures Padded(v, bits)[i] == front[i] {
      }
      assert Pow2(bits) == 2 * Pow2(bits - 1);
      if start < bits {
        if start == bits - 1 {
          Unpad(v / 2, bits - 1, bits - 1);
          assert Padded(v, bits)[start..] == [Digit(v % 2)];
        } else {
          Unpad(v / 2, bits - 1, start);
          assert Padded(v, bits)[start..] == front[start..] + [Digit(v % 2)];
        }
      } else {
        Unpad(v / 2, bits - 1, bits - 1);
      }
    }
  }

  /** The text that a pointer into the buffer stands for: up to the first zero byte. */
  function TextAt(buf: seq<Char>, start: nat): seq<Char>
    requires start <= |buf|
    decreases |buf| - start
  {
    if start == |buf| || buf[start] == NUL then [] else [buf[start]] + TextAt(buf, start + 1)
  }

  lemma {:induction false} TextToNul(buf: seq<Char>, start: nat, end: nat)
    requires start <= end < |buf| && buf[end] == NUL
    requires forall i :: start <= i < end ==> buf[i] != NUL
    ensures TextAt(buf, start) == buf[start..end]
    decreases end - start
  {
    if start < end {
      TextToNul(buf, start + 1, end);
      assert buf[start..end] == [buf[start]] + buf[start + 1..end];
    }
  }

  /** The emitted code: fill the buffer, look for the first digit that is not zero, and step back to the last
      digit when there is none.  The probe reads the slot before its index is compared with the width, so the
      slot of the terminator is read too. */
  method EmitBinBuffer(value: nat, bits: nat) returns (buffer: array<Char>, start: nat)
    requires 1 <= bits <= 64 && value < Pow2(bits)
    ensures fresh(buffer) && buffer.Length == bits + 1 && start < bits
    ensures TextAt(buffer[..], start) == Digits(value)
  {
    hide Digits, Pow2, BitAnd, TextAt;
    buffer := new Char[bits + 1](_ => NUL);
    for i := 0 to bits
      invariant buffer[bits] == NUL && forall k :: 0 <= k < i ==> buffer[k] == BitAt(value, bits, k)
    {
      var bit := value / Pow2(bits - 1 - i);
      LowBit(bit);
      buffer[i] := ZERO + BitAnd(bit, 1);
    }
    assert buffer[..bits] == Padded(value, bits);
    start := 0;
    var probe := buffer[start];
    while start < bits && probe == ZERO
      invariant start <= bits && probe == buffer[start]
      invariant forall k :: 0 <= k < start ==> buffer[k] == ZERO
    {
      start := start + 1;
      probe := buffer[start];
    }
    forall k | 0 <= k <= bits ensures k < bits ==> buffer[k] == Padded(value, bits)[k] {
    }
    Unpad(value, bits, start);
    ghost var digits := buffer[..bits][start..];
    if start == bits {
      start := bits - 1;
      NoLeadingZero(0);
    }
    TextToNul(buffer[..], start, bits);
    assert buffer[..][start..bits] == buffer[..bits][start..];
  }

  lemma LowBit(a: nat)
    ensures BitAnd(a, 1) == a % 2
  {
    assert Pow2(1) == 2 by {
      assert Pow2(0) == 1;
    }
    MaskIsMod(a, 1);
  }

  /** A value of any integer type of at most 64 bits is shown in the same way whether it is folded or
      formatted at run time, where it is held as the pattern of its width; and the pattern can be read back. */
  method FormatBin(n: int, bits: nat, folded: bool) returns (text: seq<Char>)
    requires 1 <= bits <= 64
    ensures text == Digits(n % Pow2(bits))
    ensures Decode(text) == n % Pow2(bits)
  {
    if folded {
      text := ConstantText(n, bits);
      ConstantTextIs(n, bits);
    } else {
      var buffer, start := EmitBinBuffer(n % Pow2(bits), bits);
      text := TextAt(buffer[..], start);
    }
    DecodeDigits(n % Pow2(bits));
  }

  /** Two values of one integer type are shown alike only if they are equal. */
  lemma TextInjective(x: int, y: int, bits: nat, signed: bool)
    requires 1 <= bits <= 64 && InRange(x, bits, signed) && InRange(y, bits, signed)
    requires ConstantText(x, bits) == ConstantText(y, bits)
    ensures x == y
  {
    ConstantTextIs(x, bits);
    ConstantTextIs(y, bits);
    DecodeDigits(x % Pow2(bits));
    DecodeDigits(y % Pow2(bits));
    PatternInjective(x, y, bits, signed);
  }
}
