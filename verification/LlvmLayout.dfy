/**
 The memory layout that the target gives to machine types: sizes, alignments, field offsets, and which
 bytes of a type carry data rather than padding.  Also a byte memory with loads and stores of whole
 machine values, in which padding is not preserved.
 */
module LlvmLayout {
  import opened Arith

  datatype Kind = KInt | KFloat | KPtr | KVec

  type ScalarSize = n: nat | n == 1 || n == 2 || n == 4 || n == 8 witness 1

  /** Scalars are aligned to their size, except that an eight-byte scalar may be aligned to four bytes, as
      32-bit data layouts have it; a two-float vector is one eight-byte scalar. */
  datatype LTy = Sc(kind: Kind, size: ScalarSize, low: bool) | Arr(elem: LTy, n: nat) | St(fields: seq<LTy>)

  const I8: LTy := Sc(KInt, 1, false)
  const I16: LTy := Sc(KInt, 2, false)
  const I32: LTy := Sc(KInt, 4, false)
  const I64: LTy := Sc(KInt, 8, false)
  const F32: LTy := Sc(KFloat, 4, false)
  const F64: LTy := Sc(KFloat, 8, false)
  const V2F32: LTy := Sc(KVec, 8, false)

  function ScalarAlign(size: ScalarSize, low: bool): (a: ScalarSize)
    ensures size % a == 0
  {
    if low && size == 8 then 4 else size
  }

  /** The least multiple of `a` that is at least `x`. */
  function AlignUp(x: nat, a: ScalarSize): (r: nat)
    ensures x <= r < x + a && r % a == 0
    ensures x % a == 0 ==> r == x
  {
    AlignUpIs(x, a);
    (x + a - 1) / a * a
  }

  lemma AlignUpIs(x: nat, a: ScalarSize)
    ensures var r := (x + a - 1) / a * a; x <= r < x + a && r % a == 0 && (x % a == 0 ==> r == x)
  {
    if a == 2 {
      EvenUp(x);
    } else if a == 4 {
      FourUp(x);
    } else if a == 8 {
      EightUp(x);
    }
  }

  lemma EvenUp(x: nat)
    ensures var r := (x + 1) / 2 * 2; x <= r < x + 2 && r % 2 == 0 && (x % 2 == 0 ==> r == x)
  {
  }

  lemma FourUp(x: nat)
    ensures var r := (x + 3) / 4 * 4; x <= r < x + 4 && r % 4 == 0 && (x % 4 == 0 ==> r == x)
  {
  }

  lemma EightUp(x: nat)
    ensures var r := (x + 7) / 8 * 8; x <= r < x + 8 && r % 8 == 0 && (x % 8 == 0 ==> r == x)
  {
  }

  function MaxAlign(a: ScalarSize, b: ScalarSize): (r: ScalarSize)
    ensures r >= a && r >= b && r % a == 0 && r % b == 0
  {
    if a < b then b else a
  }

  function Align(t: LTy): ScalarSize
    decreases t, 1
  {
    match t
    case Sc(_, s, low) => ScalarAlign(s, low)
    case Arr(e, _) => Align(e)
    case St(fs) => AlignAll(fs)
  }

  function AlignAll(fs: seq<LTy>): ScalarSize
    decreases fs, 0
  {
    if fs == [] then 1 else MaxAlign(Align(fs[0]), AlignAll(fs[1..]))
  }

  function Size(t: LTy): nat
    decreases t, 1
  {
    match t
    case Sc(_, s, _) => s
    case Arr(e, n) => Size(e) * n
    case St(fs) => AlignUp(End(fs, 0), AlignAll(fs))
  }

  /** Where the fields end that are laid out one after the other from `at` on. */
  function End(fs: seq<LTy>, at: nat): (r: nat)
    ensures r >= at
    decreases fs, 0
  {
    if fs == [] then at else End(fs[1..], AlignUp(at, Align(fs[0])) + Size(fs[0]))
  }

  /** The offset of field `i` when the fields are laid out from `at` on. */
  function OffsetFrom(fs: seq<LTy>, at: nat, i: nat): (r: nat)
    requires i < |fs|
    ensures r >= at
    decreases i
  {
    if i == 0 then AlignUp(at, Align(fs[0]))
    else OffsetFrom(fs[1..], AlignUp(at, Align(fs[0])) + Size(fs[0]), i - 1)
  }

  function Offset(fs: seq<LTy>, i: nat): nat
    requires i < |fs|
  {
    OffsetFrom(fs, 0, i)
  }

  /** Byte `k` of a value of type `t` carries data. */
  predicate IsData(t: LTy, k: nat)
    decreases t, 1
  {
    match t
    case Sc(_, s, _) => k < s
    case Arr(e, n) => Size(e) > 0 && k < Size(e) * n && IsData(e, k % Size(e))
    case St(fs) => IsDataFrom(fs, 0, k)
  }

  predicate IsDataFrom(fs: seq<LTy>, at: nat, k: nat)
    decreases fs, 0
  {
    fs != [] &&
    var off := AlignUp(at, Align(fs[0]));
    if off <= k < off + Size(fs[0]) then IsData(fs[0], k - off) else IsDataFrom(fs[1..], off + Size(fs[0]), k)
  }

  // ----- sizes and alignments -----

  lemma {:induction false} AlignOfField(fs: seq<LTy>, i: nat)
    requires i < |fs|
    ensures AlignAll(fs) % Align(fs[i]) == 0 && Align(fs[i]) <= AlignAll(fs)
    decreases i
  {
    if i > 0 {
      AlignOfField(fs[1..], i - 1);
    }
  }

  /** Every size is a multiple of the alignment. */
  lemma {:induction false} SizeAligned(t: LTy)
    ensures Size(t) % Align(t) == 0
    decreases t
  {
    if t.Arr? {
      SizeAligned(t.elem);
      MulAligned(Size(t.elem), t.n, Align(t.elem));
    }
  }

  lemma {:induction false} MulAligned(s: nat, n: nat, a: ScalarSize)
    requires s % a == 0
    ensures (s * n) % a == 0
  {
    var q := s / a;
    assert s == q * a;
    assert s * n == (q * n) * a;
    DivModUnique(q * n, a, 0);
  }

  /** A field is aligned, ends before the next one starts, and lies inside its struct. */
  lemma {:induction false} FieldInside(fs: seq<LTy>, at: nat, i: nat)
    requires i < |fs|
    ensures OffsetFrom(fs, at, i) % Align(fs[i]) == 0
    ensures OffsetFrom(fs, at, i) + Size(fs[i]) <= End(fs, at)
    decreases i
  {
    if i > 0 {
      FieldInside(fs[1..], AlignUp(at, Align(fs[0])) + Size(fs[0]), i - 1);
    }
  }

  lemma {:induction false} FieldsApart(fs: seq<LTy>, at: nat, i: nat, j: nat)
    requires i < j < |fs|
    ensures OffsetFrom(fs, at, i) + Size(fs[i]) <= OffsetFrom(fs, at, j)
    decreases i
  {
    if i > 0 {
      FieldsApart(fs[1..], AlignUp(at, Align(fs[0])) + Size(fs[0]), i - 1, j - 1);
    }
  }

  lemma FieldInStruct(fs: seq<LTy>, i: nat)
    requires i < |fs|
    ensures Offset(fs, i) + Size(fs[i]) <= Size(St(fs)) && Offset(fs, i) % Align(fs[i]) == 0
    ensures Align(St(fs)) % Align(fs[i]) == 0
  {
    FieldInside(fs, 0, i);
    AlignOfField(fs, i);
  }

  // ----- fields in their order -----

  predicate Aligned(x: nat, a: ScalarSize) {
    x % a == 0
  }

  /** `off` is the first multiple of `a` at or after `end`. */
  ghost predicate FirstAligned(off: nat, end: nat, a: ScalarSize) {
    end <= off && Aligned(off, a) && forall x :: end <= x && Aligned(x, a) ==> off <= x
  }

  lemma {:induction false} NextField(fs: seq<LTy>, at: nat, i: nat)
    requires i + 1 < |fs|
    ensures var end := OffsetFrom(fs, at, i) + Size(fs[i]); var off := OffsetFrom(fs, at, i + 1);
            FirstAligned(off, end, Align(fs[i + 1]))
    decreases i
  {
    hide *;
    var next := AlignUp(at, Align(fs[0])) + Size(fs[0]);
    OffsetFromHead(fs, at, i);
    OffsetFromHead(fs, at, i + 1);
    if i == 0 {
      OffsetFromHead(fs[1..], next, 0);
      UpIsLeast(next, Align(fs[1]));
    } else {
      NextField(fs[1..], next, i - 1);
    }
  }

  lemma UpIsLeast(x: nat, a: ScalarSize)
    ensures FirstAligned(AlignUp(x, a), x, a)
  {
    var r := AlignUp(x, a);
    hide AlignUp;
    forall y | x <= y && Aligned(y, a) ensures r <= y {
      if y < r {
        NoneBetween(y, r, a);
      }
    }
  }

  lemma NoneBetween(y: nat, r: nat, a: ScalarSize)
    requires y % a == 0 && r % a == 0 && y < r
    ensures y + a <= r
  {
    if a == 2 {
      assert y + 2 <= r;
    } else if a == 4 {
      assert y + 4 <= r;
    } else if a == 8 {
      assert y + 8 <= r;
    }
  }

  lemma AtOnce(off: nat, a: ScalarSize)
    requires off % a == 0
    ensures FirstAligned(off, off, a)
  {
  }

  /** The last field, if any, ends where the fields end. */
  lemma {:induction false} EndIs(fs: seq<LTy>, at: nat)
    ensures End(fs, at) == if fs == [] then at else OffsetFrom(fs, at, |fs| - 1) + Size(fs[|fs| - 1])
    decreases |fs|
  {
    hide Size, Align;
    if |fs| > 0 {
      var next := AlignUp(at, Align(fs[0])) + Size(fs[0]);
      EndIs(fs[1..], next);
      assert End(fs, at) == End(fs[1..], next);
      if |fs| > 1 {
        assert OffsetFrom(fs, at, |fs| - 1) == OffsetFrom(fs[1..], next, |fs| - 2);
      }
    }
  }

  lemma {:induction false} AlignIsSome(fs: seq<LTy>)
    ensures fs == [] ==> AlignAll(fs) == 1
    ensures fs != [] ==> exists i :: 0 <= i < |fs| && AlignAll(fs) == Align(fs[i])
  {
    hide Align;
    if |fs| > 1 {
      AlignIsSome(fs[1..]);
      if AlignAll(fs) != Align(fs[0]) {
        var i :| 0 <= i < |fs[1..]| && AlignAll(fs[1..]) == Align(fs[1..][i]);
        assert AlignAll(fs) == Align(fs[i + 1]);
      }
    } else if |fs| == 1 {
      assert AlignAll(fs) == MaxAlign(Align(fs[0]), AlignAll(fs[1..]));
    }
  }

  /** A struct has the greatest alignment of its fields and ends at the first offset aligned for it at or after the
      end of the last field. */
  lemma StructIs(fs: seq<LTy>)
    ensures forall i :: 0 <= i < |fs| ==> Align(fs[i]) <= Align(St(fs))
    ensures if fs == [] then Align(St(fs)) == 1 else exists i :: 0 <= i < |fs| && Align(St(fs)) == Align(fs[i])
    ensures var end := if fs == [] then 0 else Offset(fs, |fs| - 1) + Size(fs[|fs| - 1]);
            FirstAligned(Size(St(fs)), end, Align(St(fs)))
  {
    forall i | 0 <= i < |fs| ensures Align(fs[i]) <= AlignAll(fs) {
      AlignOfField(fs, i);
    }
    AlignIsSome(fs);
    EndIs(fs, 0);
    UpIsLeast(End(fs, 0), AlignAll(fs));
    StructParts(fs);
    hide *;
  }

  lemma StructParts(fs: seq<LTy>)
    ensures Align(St(fs)) == AlignAll(fs) && Size(St(fs)) == AlignUp(End(fs, 0), AlignAll(fs))
    ensures fs != [] ==> Offset(fs, |fs| - 1) == OffsetFrom(fs, 0, |fs| - 1)
  {
  }

  lemma {:induction false} ElementInArray(e: LTy, n: nat, i: nat)
    requires i < n
    ensures i * Size(e) + Size(e) <= Size(Arr(e, n)) && (i * Size(e)) % Align(e) == 0
  {
    SizeAligned(e);
    MulAligned(Size(e), i, Align(e));
    ElementEnd(Size(e), i, n);
  }

  lemma ElementEnd(s: nat, i: nat, n: nat)
    requires i < n
    ensures i * s + s <= s * n
  {
    MulAtLeast(n - i, s);
    assert s * n == i * s + (n - i) * s;
  }

  // ----- data bytes -----

  lemma DataFromHead(fs: seq<LTy>, at: nat, j: nat)
    requires fs != []
    ensures var off := AlignUp(at, Align(fs[0]));
            IsDataFrom(fs, at, j) ==
            if off <= j < off + Size(fs[0]) then IsData(fs[0], j - off) else IsDataFrom(fs[1..], off + Size(fs[0]), j)
  {
    hide AlignUp, Align, Size, IsData;
  }

  lemma OffsetFromHead(fs: seq<LTy>, at: nat, i: nat)
    requires i < |fs|
    ensures var off := AlignUp(at, Align(fs[0]));
            OffsetFrom(fs, at, i) == if i == 0 then off else OffsetFrom(fs[1..], off + Size(fs[0]), i - 1)
  {
    hide AlignUp, Align, Size;
  }

  lemma {:induction false} DataOfFieldFrom(fs: seq<LTy>, at: nat, i: nat, k: nat)
    requires i < |fs| && k < Size(fs[i])
    ensures IsDataFrom(fs, at, OffsetFrom(fs, at, i) + k) == IsData(fs[i], k)
    decreases i
  {
    hide *;
    var next := AlignUp(at, Align(fs[0])) + Size(fs[0]);
    DataFromHead(fs, at, OffsetFrom(fs, at, i) + k);
    OffsetFromHead(fs, at, i);
    if i > 0 {
      DataOfFieldFrom(fs[1..], next, i - 1, k);
    }
  }

  /** The data bytes of a field are the data bytes of the struct inside the field. */
  lemma DataOfField(fs: seq<LTy>, i: nat, k: nat)
    requires i < |fs| && k < Size(fs[i])
    ensures IsData(St(fs), Offset(fs, i) + k) == IsData(fs[i], k)
  {
    hide *;
    OffsetIs(fs, i);
    DataOfFieldFrom(fs, 0, i, k);
    DataOfStruct(fs, Offset(fs, i) + k);
  }

  lemma OffsetIs(fs: seq<LTy>, i: nat)
    requires i < |fs|
    ensures Offset(fs, i) == OffsetFrom(fs, 0, i)
  {
  }

  lemma DataOfStruct(fs: seq<LTy>, k: nat)
    ensures IsData(St(fs), k) == IsDataFrom(fs, 0, k)
  {
  }

  lemma {:induction false} DataBounded(t: LTy, k: nat)
    requires IsData(t, k)
    ensures k < Size(t)
  {
    if t.St? {
      DataBoundedFrom(t.fields, 0, k);
    }
  }

  lemma {:induction false} DataBoundedFrom(fs: seq<LTy>, at: nat, k: nat)
    requires IsDataFrom(fs, at, k)
    ensures k < End(fs, at)
    decreases |fs|
  {
    var off := AlignUp(at, Align(fs[0]));
    if !(off <= k < off + Size(fs[0])) {
      DataBoundedFrom(fs[1..], off + Size(fs[0]), k);
    }
  }

  // ----- byte memory -----

  /** A byte holds a value, or nothing defined. */
  datatype Byte = B(v: nat) | Undef

  type Bytes = seq<Byte>

  /** A loaded value has no defined padding. */
  function LoadTy(mem: Bytes, at: nat, t: LTy): (v: Bytes)
    requires at + Size(t) <= |mem|
    ensures |v| == Size(t)
  {
    seq(Size(t), k requires 0 <= k < Size(t) => if IsData(t, k) then mem[at + k] else Undef)
  }

  /** A store writes the data bytes and leaves the padding undefined. */
  function StoreTy(mem: Bytes, at: nat, t: LTy, v: Bytes): (m: Bytes)
    requires at + Size(t) <= |mem| && |v| == Size(t)
    ensures |m| == |mem|
    ensures forall k :: 0 <= k < |mem| ==> m[k] == if at <= k < at + Size(t) then
              (if IsData(t, k - at) then v[k - at] else Undef) else mem[k]
  {
    seq(|mem|, k requires 0 <= k < |mem| => if at <= k < at + Size(t) then
      (if IsData(t, k - at) then v[k - at] else Undef) else mem[k])
  }

  /** A machine value of type `t`: undefined on padding. */
  predicate ValueOf(t: LTy, v: Bytes) {
    |v| == Size(t) && forall k :: 0 <= k < |v| ==> IsData(t, k) || v[k] == Undef
  }

  lemma LoadAfterStore(mem: Bytes, at: nat, t: LTy, v: Bytes)
    requires at + Size(t) <= |mem| && ValueOf(t, v)
    ensures LoadTy(StoreTy(mem, at, t, v), at, t) == v
  {
  }

  /** A store leaves loads of other bytes unchanged. */
  lemma LoadElsewhere(mem: Bytes, at: nat, t: LTy, v: Bytes, at': nat, t': LTy)
    requires at + Size(t) <= |mem| && |v| == Size(t) && at' + Size(t') <= |mem|
    requires at + Size(t) <= at' || at' + Size(t') <= at
    ensures LoadTy(StoreTy(mem, at, t, v), at', t') == LoadTy(mem, at', t')
  {
  }

  /** Every data byte of `t` is a data byte of `u`, at offset `off`. */
  ghost predicate Covers(u: LTy, off: nat, t: LTy) {
    off + Size(t) <= Size(u) && forall k: nat :: IsData(t, k) ==> IsData(u, off + k)
  }

  /** A value survives a detour through a covering type: what is read at `t` from memory is still there
      after the memory around it was loaded and stored back as one value of type `u`. */
  lemma DetourKeeps(mem: Bytes, at: nat, u: LTy, off: nat, t: LTy, mem': Bytes, at': nat)
    requires at + Size(u) <= |mem| && at' + Size(u) <= |mem'| && Covers(u, off, t)
    ensures var m := StoreTy(mem', at', u, LoadTy(mem, at, u));
            at' + off + Size(t) <= |m| && LoadTy(m, at' + off, t) == LoadTy(mem, at + off, t)
  {
    var v := LoadTy(mem, at, u);
    var m := StoreTy(mem', at', u, v);
    var x, y := LoadTy(m, at' + off, t), LoadTy(mem, at + off, t);
    forall k | 0 <= k < Size(t) ensures x[k] == y[k] {
      DetourByte(mem, at, u, off, t, mem', at', k);
    }
  }

  lemma DetourByte(mem: Bytes, at: nat, u: LTy, off: nat, t: LTy, mem': Bytes, at': nat, k: nat)
    requires at + Size(u) <= |mem| && at' + Size(u) <= |mem'| && Covers(u, off, t) && k < Size(t)
    ensures var m := StoreTy(mem', at', u, LoadTy(mem, at, u));
            LoadTy(m, at' + off, t)[k] == LoadTy(mem, at + off, t)[k]
  {
    hide Size, IsData, StoreTy;
    if IsData(t, k) {
      assert IsData(u, off + k);
    }
  }

  lemma CoversField(fs: seq<LTy>, i: nat)
    requires i < |fs|
    ensures Covers(St(fs), Offset(fs, i), fs[i])
  {
    FieldInStruct(fs, i);
    var t, f, off := St(fs), fs[i], Offset(fs, i);
    forall k: nat | IsData(f, k) ensures IsData(t, off + k) {
      DataBounded(f, k);
      DataOfField(fs, i, k);
    }
  }

  lemma CoversElement(e: LTy, n: nat, i: nat)
    requires i < n
    ensures Covers(Arr(e, n), i * Size(e), e)
  {
    hide *;
    ElementEnd(Size(e), i, n);
    SizeOfArray(e, n);
    CoversElementAt(e, n, i, i * Size(e));
  }

  lemma SizeOfArray(e: LTy, n: nat)
    ensures Size(Arr(e, n)) == Size(e) * n
  {
  }

  lemma CoversElementAt(e: LTy, n: nat, i: nat, off: nat)
    requires i < n && off == i * Size(e) && off + Size(e) <= Size(Arr(e, n))
    ensures Covers(Arr(e, n), off, e)
  {
    hide *;
    forall k: nat | IsData(e, k) ensures IsData(Arr(e, n), off + k) {
      DataBounded(e, k);
      ElementByte(e, n, i, off, k);
    }
    CoversByBytes(Arr(e, n), off, e);
  }

  lemma CoversByBytes(u: LTy, off: nat, t: LTy)
    requires off + Size(t) <= Size(u) && forall k: nat :: IsData(t, k) ==> IsData(u, off + k)
    ensures Covers(u, off, t)
  {
  }

  lemma ElementByte(e: LTy, n: nat, i: nat, off: nat, k: nat)
    requires i < n && off == i * Size(e) && k < Size(e)
    ensures IsData(Arr(e, n), off + k) == IsData(e, k)
  {
    DivModUnique(i, Size(e), k);
    ElementEnd(Size(e), i, n);
  }

  lemma CoversTrans(t: LTy, a: nat, u: LTy, b: nat, w: LTy)
    requires Covers(t, a, u) && Covers(u, b, w)
    ensures Covers(t, a + b, w)
  {
    forall k: nat | IsData(w, k) ensures IsData(t, a + b + k) {
      assert IsData(u, b + k);
      assert IsData(t, a + (b + k));
    }
  }

  /** Alignments are powers of two, so that one divides another or is divided by it. */
  lemma AlignsThrough(x: nat, a: ScalarSize, b: ScalarSize)
    requires x % a == 0 && a % b == 0
    ensures x % b == 0
  {
    var q, r := x / a, a / b;
    assert x == q * a && a == r * b;
    assert x == (q * r) * b;
    DivModUnique(q * r, b, 0);
  }
}
