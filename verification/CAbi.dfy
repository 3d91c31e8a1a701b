/**
 Passing structs to and from C: classification into eightbytes on x86-64 (System V AMD64 psABI, section
 3.2.3), homogeneous float aggregates on AArch64 (AAPCS64, parameter passing rules), and the machine
 signatures of extern declarations and calls.
 */
module CAbi {
  import opened Wrappers
  import opened Arith
  import opened LlvmLayout

  /** The targets that the generator tells apart, by the spelling of their triples. */
  datatype Target = Aarch64 | Arm64 | X64Windows | OtherTarget
  {
    predicate IsArm() {
      Aarch64? || Arm64?
    }
  }

  predicate IsFloat(t: LTy) {
    t.Sc? && t.kind == KFloat
  }

  predicate IsDouble(t: LTy) {
    IsFloat(t) && t.size == 8
  }

  /** A scalar aligned to its size. */
  predicate Full(t: LTy) {
    t.Sc? && !t.low
  }

  // ----- classification on x86-64 -----

  /** The bytes from `lo` up to `hi` reach into eightbyte `eb`. */
  predicate Overlaps(lo: nat, hi: nat, eb: nat) {
    lo < hi && lo < 8 * eb + 8 && hi > 8 * eb
  }

  /** Some byte of field `i` lies in eightbyte `eb`. */
  predicate Touches(fs: seq<LTy>, i: nat, eb: nat)
    requires i < |fs|
  {
    Overlaps(Offset(fs, i), Offset(fs, i) + Size(fs[i]), eb)
  }

  predicate AnyField(fs: seq<LTy>, n: nat, eb: nat)
    requires n <= |fs|
  {
    exists i :: 0 <= i < n && Touches(fs, i, eb)
  }

  predicate OnlyFloats(fs: seq<LTy>, n: nat, eb: nat)
    requires n <= |fs|
  {
    forall i :: 0 <= i < n && Touches(fs, i, eb) ==> IsFloat(fs[i])
  }

  predicate AnyDouble(fs: seq<LTy>, n: nat, eb: nat)
    requires n <= |fs|
  {
    exists i :: 0 <= i < n && Touches(fs, i, eb) && IsDouble(fs[i])
  }

  /** An eightbyte is of class SSE when a float field reaches into it and nothing else does. */
  predicate Sse(fs: seq<LTy>, eb: nat) {
    AnyField(fs, |fs|, eb) && OnlyFloats(fs, |fs|, eb)
  }

  function IntegerFor(bytes: nat): LTy {
    if bytes <= 1 then I8 else if bytes == 2 then I16 else if bytes <= 4 then I32 else I64
  }

  /** Byte `k` of eightbyte `eb` belongs to a struct of that size. */
  predicate InPart(size: nat, eb: nat, k: nat) {
    k < 8 && 8 * eb + k < size
  }

  /** How many bytes of the struct lie in eightbyte `eb`. */
  function BytesIn(size: nat, eb: nat): (n: nat)
    ensures forall k: nat :: InPart(size, eb, k) <==> k < n
  {
    if size <= 8 * eb then 0 else Min(size - 8 * eb, 8)
  }

  function Part(fs: seq<LTy>, eb: nat): LTy {
    var bytes := BytesIn(Size(St(fs)), eb);
    if Sse(fs, eb) then
      if AnyDouble(fs, |fs|, eb) then F64 else if bytes >= 8 then V2F32 else F32
    else IntegerFor(bytes)
  }

  /** One part for up to eight bytes, two for up to sixteen. */
  function EightbyteType(fs: seq<LTy>): LTy {
    if Size(St(fs)) <= 8 then Part(fs, 0) else St([Part(fs, 0), Part(fs, 1)])
  }

  lemma {:induction false} NextOffset(fs: seq<LTy>, at: nat, k: nat)
    requires k < |fs|
    ensures OffsetFrom(fs, at, k) ==
              AlignUp(if k == 0 then at else OffsetFrom(fs, at, k - 1) + Size(fs[k - 1]), Align(fs[k]))
    decreases k
  {
    hide *;
    OffsetFromHead(fs, at, k);
    if k > 0 {
      OffsetFromHead(fs, at, k - 1);
      NextOffset(fs[1..], AlignUp(at, Align(fs[0])) + Size(fs[0]), k - 1);
    }
  }

  /** The classification loop: every byte of every field is charged to its eightbyte. */
  method ClassifyEightbytes(fs: seq<LTy>) returns (r: LTy)
    requires 0 < Size(St(fs)) <= 16
    ensures r == EightbyteType(fs)
  {
    hide Size, Align, Touches, AnyField, OnlyFloats, AnyDouble, AlignUp, Overlaps, IsFloat, IsDouble;
    var n := (Size(St(fs)) + 7) / 8;
    forall eb: nat ensures !AnyField(fs, 0, eb) && OnlyFloats(fs, 0, eb) && !AnyDouble(fs, 0, eb) {
      NoFields(fs, eb);
    }
    var filled := new nat[n](_ => 0);
    var allSse := new bool[n](_ => true);
    var hasDouble := new bool[n](_ => false);
    var offset: nat := 0;
    var k := 0;
    while k < |fs|
      invariant k <= |fs| && offset == if k == 0 then 0 else Offset(fs, k - 1) + Size(fs[k - 1])
      invariant forall eb :: 0 <= eb < n ==> (filled[eb] > 0 <==> AnyField(fs, k, eb))
      invariant forall eb :: 0 <= eb < n ==> (allSse[eb] <==> OnlyFloats(fs, k, eb))
      invariant forall eb :: 0 <= eb < n ==> (hasDouble[eb] <==> AnyDouble(fs, k, eb))
    {
      NextOffset(fs, 0, k);
      offset := AlignUp(offset, Align(fs[k]));
      assert offset == Offset(fs, k);
      ChargeField(fs[k], offset, filled, allSse, hasDouble);
      forall eb: nat | eb < n
        ensures filled[eb] > 0 <==> AnyField(fs, k + 1, eb)
        ensures allSse[eb] <==> OnlyFloats(fs, k + 1, eb)
        ensures hasDouble[eb] <==> AnyDouble(fs, k + 1, eb)
      {
        OneMoreField(fs, k, eb);
        TouchesIs(fs, k, eb);
      }
      offset := offset + Size(fs[k]);
      k := k + 1;
    }
    r := JoinParts(fs, filled, allSse, hasDouble);
  }

  /** One machine type for every eightbyte. */
  method JoinParts(fs: seq<LTy>, filled: array<nat>, allSse: array<bool>, hasDouble: array<bool>) returns (r: LTy)
    requires 0 < Size(St(fs)) <= 16
    requires filled.Length == allSse.Length == hasDouble.Length == (Size(St(fs)) + 7) / 8
    requires forall eb :: 0 <= eb < filled.Length ==> (filled[eb] > 0 <==> AnyField(fs, |fs|, eb))
    requires forall eb :: 0 <= eb < filled.Length ==> (allSse[eb] <==> OnlyFloats(fs, |fs|, eb))
    requires forall eb :: 0 <= eb < filled.Length ==> (hasDouble[eb] <==> AnyDouble(fs, |fs|, eb))
    ensures r == EightbyteType(fs)
  {
    hide Size, Touches, AnyField, OnlyFloats, AnyDouble;
    var parts: seq<LTy> := [];
    var eb: nat := 0;
    while eb < filled.Length
      invariant eb <= filled.Length && |parts| == eb && forall j :: 0 <= j < eb ==> parts[j] == Part(fs, j)
    {
      var bytes := BytesIn(Size(St(fs)), eb);
      var part := IntegerFor(bytes);
      if filled[eb] > 0 && allSse[eb] {
        part := if hasDouble[eb] then F64 else if bytes >= 8 then V2F32 else F32;
      }
      parts := parts + [part];
      eb := eb + 1;
    }
    if |parts| == 1 {
      r := parts[0];
    } else {
      assert parts == [Part(fs, 0), Part(fs, 1)];
      r := St(parts);
    }
  }

  method ChargeField(field: LTy, offset: nat, filled: array<nat>, allSse: array<bool>, hasDouble: array<bool>)
    requires filled.Length == allSse.Length == hasDouble.Length && allSse != hasDouble
    modifies filled, allSse, hasDouble
    ensures forall eb :: 0 <= eb < filled.Length ==>
              && (filled[eb] > 0 <==> old(filled[eb]) > 0 || Overlaps(offset, offset + Size(field), eb))
              && (allSse[eb] <==> old(allSse[eb]) && (Overlaps(offset, offset + Size(field), eb) ==> IsFloat(field)))
              && (hasDouble[eb] <==>
                    old(hasDouble[eb])
                    || (Overlaps(offset, offset + Size(field), eb) && IsDouble(field)))
  {
    hide IsFloat, IsDouble, Size;
    var end := offset + Size(field);
    var b := offset;
    while b < end
      invariant offset <= b <= end
      invariant forall eb :: 0 <= eb < filled.Length ==>
              && (filled[eb] > 0 <==> old(filled[eb]) > 0 || Overlaps(offset, b, eb))
              && (allSse[eb] <==> old(allSse[eb]) && (Overlaps(offset, b, eb) ==> IsFloat(field)))
              && (hasDouble[eb] <==> old(hasDouble[eb]) || (Overlaps(offset, b, eb) && IsDouble(field)))
    {
      var eb := b / 8;
      if eb >= filled.Length {
        break;
      }
      filled[eb] := filled[eb] + 1;
      if !IsFloat(field) {
        allSse[eb] := false;
      }
      if IsDouble(field) {
        hasDouble[eb] := true;
      }
      b := b + 1;
    }
  }

  lemma NoFields(fs: seq<LTy>, eb: nat)
    ensures !AnyField(fs, 0, eb) && OnlyFloats(fs, 0, eb) && !AnyDouble(fs, 0, eb)
  {
  }

  lemma TouchesIs(fs: seq<LTy>, k: nat, eb: nat)
    requires k < |fs|
    ensures Touches(fs, k, eb) == Overlaps(Offset(fs, k), Offset(fs, k) + Size(fs[k]), eb)
  {
  }

  lemma OneMoreField(fs: seq<LTy>, k: nat, eb: nat)
    requires k < |fs|
    ensures AnyField(fs, k + 1, eb) <==> AnyField(fs, k, eb) || Touches(fs, k, eb)
    ensures OnlyFloats(fs, k + 1, eb) <==> OnlyFloats(fs, k, eb) && (Touches(fs, k, eb) ==> IsFloat(fs[k]))
    ensures AnyDouble(fs, k + 1, eb) <==> AnyDouble(fs, k, eb) || (Touches(fs, k, eb) && IsDouble(fs[k]))
  {
    hide Touches, IsFloat, IsDouble;
    if AnyField(fs, k, eb) {
      var i :| 0 <= i < k && Touches(fs, i, eb);
      assert 0 <= i < k + 1;
    }
    if AnyDouble(fs, k, eb) {
      var i :| 0 <= i < k && Touches(fs, i, eb) && IsDouble(fs[i]);
      assert 0 <= i < k + 1;
    }
  }

  // ----- AArch64 -----

  /** One to four floats of one width and nothing else. */
  function Homogeneous(fs: seq<LTy>): Option<(LTy, nat)> {
    if fs == [] || |fs| > 4 || !IsFloat(fs[0]) then None
    else if fs[0] != F32 && fs[0] != F64 then None
    else if exists i :: 0 <= i < |fs| && fs[i] != fs[0] then None
    else if Size(St(fs)) != |fs| * fs[0].size then None
    else Some((fs[0], |fs|))
  }

  /** The machine type in whose place a struct is passed, if it is passed in registers at all. */
  function Coerced(target: Target, fs: seq<LTy>): Option<LTy> {
    var size := Size(St(fs));
    if size == 0 then None
    else if target.IsArm() then
      var h := Homogeneous(fs);
      if h.Some? then Some(Arr(h.value.0, h.value.1))
      else if size > 16 then None
      else if size <= 8 then Some(I64)
      else Some(Arr(I64, 2))
    else if size > 16 then None
    else Some(EightbyteType(fs))
  }

  method CoerceType(target: Target, fs: seq<LTy>) returns (c: Option<LTy>)
    ensures c == Coerced(target, fs)
  {
    var size := Size(St(fs));
    if size == 0 {
      return None;
    }
    if target.IsArm() {
      var h := Homogeneous(fs);
      if h.Some? {
        return Some(Arr(h.value.0, h.value.1));
      }
      if size > 16 {
        return None;
      }
      return Some(if size <= 8 then I64 else Arr(I64, 2));
    }
    if size > 16 {
      return None;
    }
    var t := ClassifyEightbytes(fs);
    c := Some(t);
  }

  // ----- nothing is lost -----

  /** Floats have four or eight bytes and are aligned to their size. */
  predicate Natural(fs: seq<LTy>) {
    forall i :: 0 <= i < |fs| && IsFloat(fs[i]) ==> fs[i] == F32 || fs[i] == F64
  }

  /** Every byte of a coerced struct falls on a data byte of the coerced type, which is no less aligned. */
  predicate HoldsAll(c: LTy, t: LTy) {
    Size(t) <= Size(c) && Align(c) % Align(t) == 0 && forall b :: 0 <= b < Size(t) ==> IsData(c, b)
  }

  /** The alignment of a field divides the size of its struct. */
  lemma SizeFits(fs: seq<LTy>, i: nat)
    requires i < |fs|
    ensures Size(St(fs)) % Align(fs[i]) == 0
  {
    SizeAligned(St(fs));
    AlignOfField(fs, i);
    hide Size;
    AlignsThrough(Size(St(fs)), Align(St(fs)), Align(fs[i]));
  }

  lemma SseTouch(fs: seq<LTy>, eb: nat) returns (i: nat)
    requires Sse(fs, eb) && Natural(fs)
    ensures i < |fs| && (fs[i] == F32 || fs[i] == F64)
    ensures AnyDouble(fs, |fs|, eb) ==> fs[i] == F64
  {
    hide Touches;
    if AnyDouble(fs, |fs|, eb) {
      i :| 0 <= i < |fs| && Touches(fs, i, eb) && IsDouble(fs[i]);
    } else {
      i :| 0 <= i < |fs| && Touches(fs, i, eb);
    }
  }

  /** A struct with floats ends on a float boundary. */
  lemma SseBytes(fs: seq<LTy>, eb: nat)
    requires 8 * eb < Size(St(fs)) && Sse(fs, eb) && Natural(fs)
    ensures BytesIn(Size(St(fs)), eb) == if AnyDouble(fs, |fs|, eb) || BytesIn(Size(St(fs)), eb) >= 8 then 8 else 4
  {
    hide *;
    var i := SseTouch(fs, eb);
    SizeFits(fs, i);
    FloatAligns();
    FloatBytes(Size(St(fs)), eb, Align(fs[i]), AnyDouble(fs, |fs|, eb));
  }

  lemma FloatBytes(size: nat, eb: nat, align: ScalarSize, wide: bool)
    requires 8 * eb < size && size % align == 0 && (align == 4 || align == 8) && (wide ==> align == 8)
    ensures BytesIn(size, eb) == if wide || BytesIn(size, eb) >= 8 then 8 else 4
  {
  }

  lemma FloatAligns()
    ensures Align(F32) == 4 && Align(F64) == 8
  {
  }

  /** A part is one scalar with room for all the bytes that the struct has there. */
  lemma PartHolds(fs: seq<LTy>, eb: nat)
    requires 8 * eb < Size(St(fs)) && Natural(fs)
    ensures Full(Part(fs, eb)) && BytesIn(Size(St(fs)), eb) <= Part(fs, eb).size
  {
    hide AnyDouble, Size, Natural, Sse;
    if Sse(fs, eb) {
      SseBytes(fs, eb);
    }
  }

  lemma ScalarHolds(c: LTy, t: LTy)
    requires Full(c) && 0 < Size(t) <= c.size
    ensures HoldsAll(c, t)
  {
    SizeAligned(t);
    AlignsDivide(c.size, Align(t), Size(t));
  }

  lemma AlignsDivide(a: ScalarSize, b: ScalarSize, s: nat)
    requires 0 < s && s % b == 0 && s <= a
    ensures a % b == 0
  {
  }

  /** A run of equal scalars has no padding. */
  lemma RunHolds(e: LTy, n: nat, t: LTy)
    requires Full(e) && Size(t) <= e.size * n && e.size % Align(t) == 0
    ensures HoldsAll(Arr(e, n), t)
  {
  }

  lemma OneField(fs: seq<LTy>, at: nat, k: nat)
    requires |fs| == 1
    ensures AlignAll(fs) == Align(fs[0]) && End(fs, at) == AlignUp(at, Align(fs[0])) + Size(fs[0])
    ensures AlignUp(at, Align(fs[0])) <= k < End(fs, at) ==>
              IsDataFrom(fs, at, k) == IsData(fs[0], k - AlignUp(at, Align(fs[0])))
    ensures AlignUp(at, Align(fs[0])) <= k < End(fs, at) ==>
              LeafAtFrom(fs, at, k) == LeafAt(fs[0], k - AlignUp(at, Align(fs[0])))
  {
    hide AlignUp, Size, Align, IsData, LeafAt;
    assert fs[1..] == [];
  }

  lemma TwoFields(fs: seq<LTy>, k: nat)
    requires |fs| == 2
    ensures AlignAll(fs) == MaxAlign(Align(fs[0]), Align(fs[1]))
    ensures End(fs, 0) == AlignUp(Size(fs[0]), Align(fs[1])) + Size(fs[1])
    ensures k < Size(fs[0]) ==> IsData(St(fs), k) == IsData(fs[0], k) && LeafAt(St(fs), k) == LeafAt(fs[0], k)
    ensures var off := AlignUp(Size(fs[0]), Align(fs[1]));
            off <= k < off + Size(fs[1]) ==>
              IsData(St(fs), k) == IsData(fs[1], k - off) && LeafAt(St(fs), k) == LeafAt(fs[1], k - off)
  {
    hide *;
    OneField(fs[1..], Size(fs[0]), k);
    AlignUpZero(Align(fs[0]));
    FirstOf(fs, k);
  }

  lemma AlignUpZero(a: ScalarSize)
    ensures AlignUp(0, a) == 0
  {
  }

  /** A struct, read off its first field and the rest. */
  lemma FirstOf(fs: seq<LTy>, k: nat)
    requires fs != [] && AlignUp(0, Align(fs[0])) == 0
    ensures AlignAll(fs) == MaxAlign(Align(fs[0]), AlignAll(fs[1..])) && End(fs, 0) == End(fs[1..], Size(fs[0]))
    ensures IsData(St(fs), k) == if k < Size(fs[0]) then IsData(fs[0], k) else IsDataFrom(fs[1..], Size(fs[0]), k)
    ensures LeafAt(St(fs), k) == if k < Size(fs[0]) then LeafAt(fs[0], k) else LeafAtFrom(fs[1..], Size(fs[0]), k)
  {
    hide AlignUp, MaxAlign, Size, Align;
  }

  /** Two scalars, the second of which needs no padding before it. */
  lemma PairLayout(fs: seq<LTy>, k: nat)
    requires |fs| == 2 && Full(fs[0]) && Full(fs[1]) && fs[1].size <= fs[0].size
    ensures Align(St(fs)) == fs[0].size && Size(St(fs)) == 2 * fs[0].size
    ensures k < fs[0].size + fs[1].size ==> IsData(St(fs), k)
    ensures fs[0] == fs[1] && k < 2 * fs[0].size ==> LeafKind(St(fs), k) == Some(fs[0].kind)
  {
    hide AlignAll, End, IsDataFrom, LeafAtFrom, AlignUp;
    TwoFields(fs, k);
    AlignsDivide(fs[0].size, fs[1].size, fs[1].size);
    UpToSecond(fs[0].size, fs[1].size);
  }

  lemma UpToSecond(a: ScalarSize, b: ScalarSize)
    requires b <= a
    ensures a % b == 0 && AlignUp(a, b) == a && AlignUp(a + b, a) == 2 * a && MaxAlign(a, b) == a
  {
    AlignsDivide(a, b, b);
    TwiceUp(AlignUp(a + b, a), a, b);
    MaxOf(a, b);
    hide *;
  }

  lemma MaxOf(a: ScalarSize, b: ScalarSize)
    requires b <= a
    ensures MaxAlign(a, b) == a
  {
  }

  lemma TwiceUp(r: nat, a: ScalarSize, b: ScalarSize)
    requires r % a == 0 && b <= a && a + b <= r < 2 * a + b
    ensures r == 2 * a
  {
    if a == 2 {
      TwiceTwo(r);
    } else if a == 4 {
      TwiceFour(r);
    } else if a == 8 {
      TwiceEight(r);
    }
  }

  lemma TwiceTwo(r: nat)
    requires r % 2 == 0 && 2 < r < 6
    ensures r == 4
  {
  }

  lemma TwiceFour(r: nat)
    requires r % 4 == 0 && 4 < r < 12
    ensures r == 8
  {
  }

  lemma TwiceEight(r: nat)
    requires r % 8 == 0 && 8 < r < 24
    ensures r == 16
  {
  }

  /** Two scalars, the first of eight bytes, have no padding between them. */
  lemma PairHolds(p: LTy, q: LTy, t: LTy)
    requires Full(p) && Full(q) && p.size == 8 && 8 < Size(t) <= 8 + q.size
    ensures HoldsAll(St([p, q]), t)
  {
    hide Size, Align, IsData;
    EveryAlign(Align(t));
    var fs := [p, q];
    PairLayout(fs, 0);
    forall b | 0 <= b < Size(t) ensures IsData(St(fs), b) {
      PairLayout(fs, b);
    }
  }

  lemma {:induction false} HomogeneousAlign(fs: seq<LTy>, e: LTy)
    requires fs != [] && Full(e) && forall i :: 0 <= i < |fs| ==> fs[i] == e
    ensures AlignAll(fs) == e.size
  {
    if |fs| > 1 {
      HomogeneousAlign(fs[1..], e);
    } else {
      assert fs[1..] == [];
    }
  }

  lemma HomogeneousHolds(fs: seq<LTy>)
    requires Homogeneous(fs).Some?
    ensures HoldsAll(Arr(Homogeneous(fs).value.0, Homogeneous(fs).value.1), St(fs))
  {
    hide *;
    HomogeneousIs(fs);
    HomogeneousAlign(fs, fs[0]);
    SelfAligned(fs[0].size);
    RunHolds(fs[0], |fs|, St(fs));
  }

  lemma SelfAligned(a: ScalarSize)
    ensures a % a == 0
  {
  }

  lemma HomogeneousIs(fs: seq<LTy>)
    requires Homogeneous(fs).Some?
    ensures fs != [] && fs[0].Sc? && Full(fs[0]) && (forall i :: 0 <= i < |fs| ==> fs[i] == fs[0])
    ensures Homogeneous(fs).value == (fs[0], |fs|) && Size(St(fs)) == fs[0].size * |fs|
    ensures Align(St(fs)) == AlignAll(fs)
  {
    hide Size, AlignAll;
  }

  lemma EightbytesHold(fs: seq<LTy>)
    requires 0 < Size(St(fs)) <= 16 && Natural(fs)
    ensures HoldsAll(EightbyteType(fs), St(fs))
  {
    hide Part, Sse, AnyDouble, Natural, Size, Align, HoldsAll;
    PartHolds(fs, 0);
    if Size(St(fs)) <= 8 {
      ScalarHolds(Part(fs, 0), St(fs));
    } else {
      PartHolds(fs, 1);
      PairHolds(Part(fs, 0), Part(fs, 1), St(fs));
    }
  }

  /** A whole struct that is passed in registers fits the registers, byte for byte. */
  lemma CoercedHolds(target: Target, fs: seq<LTy>)
    requires Coerced(target, fs).Some? && Natural(fs)
    ensures HoldsAll(Coerced(target, fs).value, St(fs))
  {
    hide Homogeneous, EightbyteType, Natural, Size, HoldsAll, Align;
    if target.IsArm() {
      if Homogeneous(fs).Some? {
        HomogeneousHolds(fs);
      } else if Size(St(fs)) <= 8 {
        ScalarHolds(I64, St(fs));
      } else {
        EveryAlign(Align(St(fs)));
        RunHolds(I64, 2, St(fs));
      }
    } else {
      EightbytesHold(fs);
    }
  }

  lemma EveryAlign(a: ScalarSize)
    ensures 8 % a == 0
  {
  }

  /** Passing a struct as its coerced machine value loses nothing: the caller stores the struct over a slot
      of the coerced type and loads that type; the callee stores what it received and finds the same struct.
      The slot, aligned for its own type, is also aligned for the struct. */
  lemma CoercionLossless(target: Target, fs: seq<LTy>, slot: Bytes, v: Bytes, mem: Bytes, at: nat)
    requires Coerced(target, fs).Some? && Natural(fs) && ValueOf(St(fs), v)
    requires |slot| == Size(Coerced(target, fs).value) && at + |slot| <= |mem|
    ensures Size(St(fs)) <= |slot| && Align(Coerced(target, fs).value) % Align(St(fs)) == 0
    ensures var c := Coerced(target, fs).value;
            LoadTy(StoreTy(mem, at, c, LoadTy(StoreTy(slot, 0, St(fs), v), 0, c)), at, St(fs)) == v
  {
    var c, t := Coerced(target, fs).value, St(fs);
    CoercedHolds(target, fs);
    hide Coerced, Natural, Size, Align, IsData;
    forall k: nat | IsData(t, k) ensures IsData(c, 0 + k) {
      DataBounded(t, k);
    }
    assert Covers(c, 0, t);
    var filled := StoreTy(slot, 0, t, v);
    DetourKeeps(filled, 0, c, 0, t, mem, at);
    LoadAfterStore(slot, 0, t, v);
  }

  // ----- the classes of the standard -----

  /** The scalar to which byte `k` of a type belongs, if it is not padding. */
  function LeafAt(t: LTy, k: nat): (l: Option<LTy>)
    ensures l.Some? ==> l.value.Sc?
    decreases t, 1
  {
    match t
    case Sc(_, s, _) => if k < s then Some(t) else None
    case Arr(e, n) => if Size(e) > 0 && k < Size(e) * n then LeafAt(e, k % Size(e)) else None
    case St(fs) => LeafAtFrom(fs, 0, k)
  }

  function LeafAtFrom(fs: seq<LTy>, at: nat, k: nat): (l: Option<LTy>)
    ensures l.Some? ==> l.value.Sc?
    decreases fs, 0
  {
    if fs == [] then None
    else
      var off := AlignUp(at, Align(fs[0]));
      if off <= k < off + Size(fs[0]) then LeafAt(fs[0], k - off) else LeafAtFrom(fs[1..], off + Size(fs[0]), k)
  }

  function LeafKind(t: LTy, k: nat): Option<Kind> {
    if LeafAt(t, k).Some? then Some(LeafAt(t, k).value.kind) else None
  }

  /** The standard's class SSE: scalars at any depth count, and all of them are floats. */
  predicate StandardSse(t: LTy, eb: nat) {
    && (exists k :: 8 * eb <= k < 8 * eb + 8 && LeafKind(t, k) == Some(KFloat))
    && (forall k :: 8 * eb <= k < 8 * eb + 8 ==> LeafKind(t, k).None? || LeafKind(t, k) == Some(KFloat))
  }

  predicate ScalarsOnly(fs: seq<LTy>, eb: nat) {
    forall i :: 0 <= i < |fs| && Touches(fs, i, eb) ==> fs[i].Sc?
  }

  lemma {:induction false} LeafOfField(fs: seq<LTy>, at: nat, i: nat, k: nat)
    requires i < |fs| && k < Size(fs[i])
    ensures LeafAtFrom(fs, at, OffsetFrom(fs, at, i) + k) == LeafAt(fs[i], k)
    decreases i
  {
    hide *;
    LeafFromHead(fs, at, OffsetFrom(fs, at, i) + k);
    OffsetFromHead(fs, at, i);
    if i > 0 {
      LeafOfField(fs[1..], AlignUp(at, Align(fs[0])) + Size(fs[0]), i - 1, k);
    }
  }

  lemma {:induction false} FieldOfLeaf(fs: seq<LTy>, at: nat, k: nat) returns (i: nat)
    requires LeafAtFrom(fs, at, k).Some?
    ensures i < |fs| && OffsetFrom(fs, at, i) <= k < OffsetFrom(fs, at, i) + Size(fs[i])
    decreases |fs|
  {
    var off := AlignUp(at, Align(fs[0]));
    if off <= k < off + Size(fs[0]) {
      i := 0;
    } else {
      var j := FieldOfLeaf(fs[1..], off + Size(fs[0]), k);
      i := j + 1;
    }
  }

  /** The field and the byte of it behind a scalar byte of the struct. */
  lemma LeafByte(fs: seq<LTy>, eb: nat, k: nat) returns (i: nat)
    requires LeafAt(St(fs), k).Some? && 8 * eb <= k < 8 * eb + 8
    ensures i < |fs| && Touches(fs, i, eb) && Offset(fs, i) <= k < Offset(fs, i) + Size(fs[i])
    ensures LeafAt(St(fs), k) == LeafAt(fs[i], k - Offset(fs, i))
  {
    hide *;
    StructLeaf(fs, k);
    i := FieldOfLeaf(fs, 0, k);
    LeafOfField(fs, 0, i, k - OffsetFrom(fs, 0, i));
    InsideTouches(fs, i, eb, k);
  }

  lemma StructLeaf(fs: seq<LTy>, k: nat)
    ensures LeafAt(St(fs), k) == LeafAtFrom(fs, 0, k)
  {
  }

  lemma InsideTouches(fs: seq<LTy>, i: nat, eb: nat, k: nat)
    requires i < |fs| && OffsetFrom(fs, 0, i) <= k < OffsetFrom(fs, 0, i) + Size(fs[i]) && 8 * eb <= k < 8 * eb + 8
    ensures Touches(fs, i, eb) && Offset(fs, i) == OffsetFrom(fs, 0, i)
  {
    hide Size, OffsetFrom;
  }

  /** A field that reaches into an eightbyte has a byte there. */
  lemma ByteOf(fs: seq<LTy>, i: nat, eb: nat) returns (k: nat)
    requires i < |fs| && Touches(fs, i, eb) && fs[i].Sc?
    ensures 8 * eb <= k < 8 * eb + 8 && LeafAt(St(fs), k) == Some(fs[i])
  {
    hide Align, LeafAtFrom, OffsetFrom;
    k := Max(Offset(fs, i), 8 * eb);
    StructLeaf(fs, k);
    LeafOfField(fs, 0, i, k - Offset(fs, i));
  }

  lemma SseIsStandard(fs: seq<LTy>, eb: nat)
    requires Sse(fs, eb)
    ensures StandardSse(St(fs), eb)
  {
    hide Touches, LeafAt, Size, Offset;
    var i :| 0 <= i < |fs| && Touches(fs, i, eb);
    var at := ByteOf(fs, i, eb);
    assert LeafKind(St(fs), at) == Some(KFloat);
    forall k | 8 * eb <= k < 8 * eb + 8 && LeafKind(St(fs), k).Some? ensures LeafKind(St(fs), k) == Some(KFloat) {
      var j := LeafByte(fs, eb, k);
      ScalarLeaf(fs[j], k - Offset(fs, j));
    }
  }

  lemma ScalarLeaf(t: LTy, k: nat)
    requires t.Sc? && k < Size(t)
    ensures LeafAt(t, k) == Some(t)
  {
  }

  lemma StandardIsSse(fs: seq<LTy>, eb: nat)
    requires StandardSse(St(fs), eb) && ScalarsOnly(fs, eb)
    ensures Sse(fs, eb)
  {
    hide Touches, LeafAt, Size, Offset;
    var k :| 8 * eb <= k < 8 * eb + 8 && LeafKind(St(fs), k) == Some(KFloat);
    var j := LeafByte(fs, eb, k);
    forall i | 0 <= i < |fs| && Touches(fs, i, eb) ensures IsFloat(fs[i]) {
      var at := ByteOf(fs, i, eb);
      assert LeafKind(St(fs), at) == Some(fs[i].kind);
    }
  }

  /** The classification looks at top-level fields only.  It gives an eightbyte the class of the standard
      unless all its scalars are floats and some of them sit inside an array or a nested struct. */
  lemma ClassMeetsStandard(fs: seq<LTy>, eb: nat)
    ensures (Sse(fs, eb) <==> StandardSse(St(fs), eb)) <==> !(StandardSse(St(fs), eb) && !ScalarsOnly(fs, eb))
  {
    SseIff(fs, eb);
    hide Touches, StandardSse, AnyField;
  }

  // ----- the registers, read off the bytes of the struct -----

  /** The machine type of one eightbyte of a coerced struct. */
  function RegisterOf(c: LTy, eb: nat): LTy {
    if c.St? && eb < |c.fields| then c.fields[eb] else c
  }

  predicate DoubleIn(t: LTy, eb: nat) {
    exists k :: 8 * eb <= k < 8 * eb + 8 && LeafAt(t, k) == Some(F64)
  }

  /** Which register an eightbyte of struct `t` belongs in.  A vector register where its class is SSE and no scalar
      of it is nested: a double for a double, two floats where two floats lie or one float and then padding, one
      float for one float at the end.  Otherwise an integer of the smallest size that holds the bytes. */
  predicate RegisterFor(t: LTy, nested: bool, eb: nat, r: LTy) {
    var bytes := BytesIn(Size(t), eb);
    var sse := StandardSse(t, eb) && !nested;
    var first, second := LeafAt(t, 8 * eb), LeafAt(t, 8 * eb + 4);
    && (r == F64 <==> sse && DoubleIn(t, eb))
    && (r == V2F32 <==> sse && first == Some(F32) && (second == Some(F32) || (second == None && bytes == 8)))
    && (r == F32 <==> sse && first == Some(F32) && second == None && bytes == 4)
    && (!sse ==>
          r.Sc? && r.kind == KInt && !r.low && bytes <= r.size && (r.size == 1 || r.size / 2 < bytes))
  }

  /** Before a field that begins inside an eightbyte, another one covers the first byte of it. */
  lemma {:induction false} CoversFirst(fs: seq<LTy>, i: nat, eb: nat) returns (j: nat)
    requires i < |fs| && 8 * eb < Offset(fs, i)
    ensures j < i && Offset(fs, j) <= 8 * eb < Offset(fs, j) + Size(fs[j])
    decreases i
  {
    hide *;
    OffsetIs(fs, i);
    NextOffset(fs, 0, i);
    AlignUpZero(Align(fs[i]));
    assert i > 0;
    OffsetIs(fs, i - 1);
    UpToMultiple(OffsetFrom(fs, 0, i - 1) + Size(fs[i - 1]), Align(fs[i]), eb);
    if Offset(fs, i - 1) <= 8 * eb {
      j := i - 1;
    } else {
      j := CoversFirst(fs, i - 1, eb);
    }
  }

  lemma UpToMultiple(x: nat, a: ScalarSize, eb: nat)
    ensures AlignUp(x, a) > 8 * eb ==> x > 8 * eb
  {
    if x <= 8 * eb {
      MultipleAbove(x, a, 8 * eb);
    }
  }

  lemma MultipleAbove(x: nat, a: ScalarSize, m: nat)
    requires x <= m && m % 8 == 0
    ensures AlignUp(x, a) <= m
  {
    EveryAlign(a);
    AlignsThrough(m, 8, a);
    NotBetween(AlignUp(x, a), m, a);
    hide *;
  }

  lemma NotBetween(r: nat, m: nat, a: ScalarSize)
    requires r % a == 0 && m % a == 0 && r < m + a
    ensures r <= m
  {
    if a == 2 {
      NotBetweenTwos(r, m);
    } else if a == 4 {
      NotBetweenFours(r, m);
    } else if a == 8 {
      NotBetweenEights(r, m);
    }
  }

  lemma NotBetweenTwos(r: nat, m: nat)
    requires r % 2 == 0 && m % 2 == 0 && r < m + 2
    ensures r <= m
  {
  }

  lemma NotBetweenFours(r: nat, m: nat)
    requires r % 4 == 0 && m % 4 == 0 && r < m + 4
    ensures r <= m
  {
  }

  lemma NotBetweenEights(r: nat, m: nat)
    requires r % 8 == 0 && m % 8 == 0 && r < m + 8
    ensures r <= m
  {
  }

  lemma SseIff(fs: seq<LTy>, eb: nat)
    ensures Sse(fs, eb) <==> StandardSse(St(fs), eb) && ScalarsOnly(fs, eb)
  {
    if Sse(fs, eb) {
      SseIsStandard(fs, eb);
    } else if StandardSse(St(fs), eb) && ScalarsOnly(fs, eb) {
      StandardIsSse(fs, eb);
    }
    hide Touches, StandardSse, AnyField;
  }

  /** Scalar bytes lie inside the struct. */
  lemma LeafBounded(fs: seq<LTy>, k: nat)
    ensures LeafAt(St(fs), k).Some? ==> k < Size(St(fs))
  {
    hide *;
    if LeafAt(St(fs), k).Some? {
      StructLeaf(fs, k);
      var i := FieldOfLeaf(fs, 0, k);
      OffsetIs(fs, i);
      FieldInStruct(fs, i);
    }
  }

  /** In an eightbyte of floats every scalar byte belongs to a float field. */
  lemma FloatByte(fs: seq<LTy>, eb: nat, k: nat) returns (i: nat)
    requires Sse(fs, eb) && Natural(fs) && 8 * eb <= k < 8 * eb + 8 && LeafAt(St(fs), k).Some?
    ensures i < |fs| && Touches(fs, i, eb) && Offset(fs, i) <= k < Offset(fs, i) + Size(fs[i])
    ensures LeafAt(St(fs), k) == Some(fs[i]) && (fs[i] == F32 || fs[i] == F64)
  {
    i := LeafByte(fs, eb, k);
    hide Touches, LeafAt, Offset, AnyField;
    ScalarLeaf(fs[i], k - Offset(fs, i));
  }

  lemma DoubleIff(fs: seq<LTy>, eb: nat)
    requires Sse(fs, eb) && Natural(fs)
    ensures AnyDouble(fs, |fs|, eb) <==> DoubleIn(St(fs), eb)
  {
    hide Touches, LeafAt, Offset, AnyField, Size;
    if AnyDouble(fs, |fs|, eb) {
      var i :| 0 <= i < |fs| && Touches(fs, i, eb) && IsDouble(fs[i]);
      var k := ByteOf(fs, i, eb);
      assert LeafAt(St(fs), k) == Some(F64);
    }
    if k :| 8 * eb <= k < 8 * eb + 8 && LeafAt(St(fs), k) == Some(F64) {
      var i := FloatByte(fs, eb, k);
      assert IsDouble(fs[i]);
    }
  }

  /** The first byte of an eightbyte of floats belongs to one. */
  lemma FirstByte(fs: seq<LTy>, eb: nat)
    requires Sse(fs, eb) && Natural(fs)
    ensures LeafAt(St(fs), 8 * eb) == Some(F32) || LeafAt(St(fs), 8 * eb) == Some(F64)
  {
    hide *;
    var k := FirstField(fs, eb);
    StructLeaf(fs, 8 * eb);
    OffsetIs(fs, k);
    LeafOfField(fs, 0, k, 8 * eb - Offset(fs, k));
    ScalarLeaf(fs[k], 8 * eb - Offset(fs, k));
  }

  lemma FirstField(fs: seq<LTy>, eb: nat) returns (k: nat)
    requires Sse(fs, eb) && Natural(fs)
    ensures k < |fs| && Offset(fs, k) <= 8 * eb < Offset(fs, k) + Size(fs[k])
    ensures fs[k].Sc? && (fs[k] == F32 || fs[k] == F64)
  {
    var i :| 0 <= i < |fs| && Touches(fs, i, eb);
    if Offset(fs, i) <= 8 * eb {
      k := i;
    } else {
      k := CoversFirst(fs, i, eb);
    }
    assert Touches(fs, k, eb) && IsFloat(fs[k]);
    NaturalAt(fs, k);
    hide *;
  }

  lemma NaturalAt(fs: seq<LTy>, k: nat)
    requires Natural(fs) && k < |fs| && IsFloat(fs[k])
    ensures fs[k] == F32 || fs[k] == F64
  {
  }

  /** A second float in an eightbyte fills it. */
  lemma SecondFills(fs: seq<LTy>, eb: nat)
    requires Sse(fs, eb) && Natural(fs) && !AnyDouble(fs, |fs|, eb) && LeafAt(St(fs), 8 * eb + 4).Some?
    ensures LeafAt(St(fs), 8 * eb + 4) == Some(F32) && BytesIn(Size(St(fs)), eb) == 8
  {
    var i := FloatByte(fs, eb, 8 * eb + 4);
    hide LeafAt, Sse, Natural;
    FieldInStruct(fs, i);
    LeafBounded(fs, 8 * eb + 4);
    assert fs[i] == F32 by {
      assert IsDouble(F64);
    }
    FloatAligns();
    assert Size(fs[i]) == 4;
    hide *;
    QuarterUp(Offset(fs, i), eb, Size(St(fs)));
  }

  lemma QuarterUp(off: nat, eb: nat, size: nat)
    requires off % 4 == 0 && off <= 8 * eb + 4 < off + 4 && off + 4 <= size
    ensures BytesIn(size, eb) == 8
  {
    SameQuarter(off, 2 * eb + 1);
  }

  lemma SameQuarter(off: nat, q: nat)
    requires off % 4 == 0 && off <= 4 * q < off + 4
    ensures off == 4 * q
  {
  }

  lemma PartIsRegister(fs: seq<LTy>, eb: nat)
    requires 8 * eb < Size(St(fs)) && Natural(fs)
    ensures RegisterFor(St(fs), !ScalarsOnly(fs, eb), eb, Part(fs, eb))
  {
    hide *;
    var t := St(fs);
    SseIff(fs, eb);
    PartIs(fs, eb);
    SomeBytes(Size(t), eb);
    if Sse(fs, eb) {
      SseBytes(fs, eb);
      DoubleIff(fs, eb);
      FirstByte(fs, eb);
      LeafBounded(fs, 8 * eb + 4);
      EndsBefore(Size(t), eb);
      if !AnyDouble(fs, |fs|, eb) && LeafAt(t, 8 * eb + 4).Some? {
        SecondFills(fs, eb);
      }
      if LeafAt(t, 8 * eb) == Some(F64) {
        HasDouble(t, eb);
      }
      if AnyDouble(fs, |fs|, eb) {
        DoubleFills(fs, eb);
      }
      FloatRegister(t, !ScalarsOnly(fs, eb), eb, Part(fs, eb), AnyDouble(fs, |fs|, eb));
    } else {
      IntegerRegister(t, !ScalarsOnly(fs, eb), eb);
    }
  }

  lemma DoubleFills(fs: seq<LTy>, eb: nat)
    requires AnyDouble(fs, |fs|, eb) && Natural(fs)
    ensures LeafAt(St(fs), 8 * eb) == Some(F64)
  {
    hide *;
    var i := SomeDouble(fs, eb);
    FieldInStruct(fs, i);
    SameEighth(Offset(fs, i), eb);
    StructLeaf(fs, 8 * eb);
    OffsetIs(fs, i);
    LeafOfField(fs, 0, i, 0);
    ScalarLeaf(fs[i], 0);
  }

  lemma SomeDouble(fs: seq<LTy>, eb: nat) returns (i: nat)
    requires AnyDouble(fs, |fs|, eb) && Natural(fs)
    ensures i < |fs| && fs[i] == F64 && Align(fs[i]) == 8 && Size(fs[i]) == 8 && fs[i].Sc?
    ensures Offset(fs, i) < 8 * eb + 8 && Offset(fs, i) + 8 > 8 * eb
  {
    i :| 0 <= i < |fs| && Touches(fs, i, eb) && IsDouble(fs[i]);
    NaturalAt(fs, i);
    hide Offset, Natural;
  }

  lemma SameEighth(off: nat, eb: nat)
    requires off % 8 == 0 && off < 8 * eb + 8 && off + 8 > 8 * eb
    ensures off == 8 * eb
  {
  }

  lemma PartIs(fs: seq<LTy>, eb: nat)
    ensures var bytes := BytesIn(Size(St(fs)), eb);
            Part(fs, eb) ==
            if !Sse(fs, eb) then IntegerFor(bytes)
            else if AnyDouble(fs, |fs|, eb) then F64 else if bytes >= 8 then V2F32 else F32
  {
    hide Sse, AnyDouble, Size, BytesIn;
  }

  lemma SomeBytes(size: nat, eb: nat)
    requires 8 * eb < size
    ensures 1 <= BytesIn(size, eb) <= 8
  {
  }

  lemma EndsBefore(size: nat, eb: nat)
    ensures BytesIn(size, eb) <= 4 ==> size <= 8 * eb + 4
  {
  }

  lemma HasDouble(t: LTy, eb: nat)
    requires LeafAt(t, 8 * eb) == Some(F64)
    ensures DoubleIn(t, eb)
  {
  }

  lemma FloatRegister(t: LTy, nested: bool, eb: nat, r: LTy, double: bool)
    requires StandardSse(t, eb) && !nested
    requires double <==> DoubleIn(t, eb)
    requires LeafAt(t, 8 * eb) == Some(F32) || LeafAt(t, 8 * eb) == Some(F64)
    requires LeafAt(t, 8 * eb) == Some(F64) ==> double
    requires BytesIn(Size(t), eb) == if double || BytesIn(Size(t), eb) >= 8 then 8 else 4
    requires !double && LeafAt(t, 8 * eb + 4).Some? ==>
               LeafAt(t, 8 * eb + 4) == Some(F32) && BytesIn(Size(t), eb) == 8
    requires double ==> LeafAt(t, 8 * eb) == Some(F64)
    requires r == if double then F64 else if BytesIn(Size(t), eb) >= 8 then V2F32 else F32
    ensures RegisterFor(t, nested, eb, r)
  {
    hide StandardSse, LeafAt, Size, BytesIn, DoubleIn;
  }

  lemma IntegerRegister(t: LTy, nested: bool, eb: nat)
    requires !(StandardSse(t, eb) && !nested) && 1 <= BytesIn(Size(t), eb) <= 8
    ensures RegisterFor(t, nested, eb, IntegerFor(BytesIn(Size(t), eb)))
  {
    hide StandardSse, LeafAt, Size, BytesIn, DoubleIn;
  }

  /** The registers of a struct of up to sixteen bytes on x86-64: one or two, each the one for its eightbyte. */
  lemma RegistersMeetStandard(target: Target, fs: seq<LTy>, eb: nat)
    requires (target.X64Windows? || target.OtherTarget?) && 8 * eb < Size(St(fs)) <= 16 && Natural(fs)
    ensures Coerced(target, fs).Some?
    ensures var c := Coerced(target, fs).value;
            && (Size(St(fs)) <= 8 ==> c.Sc?) && (Size(St(fs)) > 8 ==> c.St? && |c.fields| == 2)
            && RegisterFor(St(fs), !ScalarsOnly(fs, eb), eb, RegisterOf(c, eb))
  {
    PartIsRegister(fs, eb);
    PartHolds(fs, 0);
    EightbytesCoerced(target, fs);
    hide *;
    PartOfEightbytes(fs, eb);
  }

  lemma EightbytesCoerced(target: Target, fs: seq<LTy>)
    requires (target.X64Windows? || target.OtherTarget?) && 0 < Size(St(fs)) <= 16
    ensures Coerced(target, fs) == Some(EightbyteType(fs))
  {
    hide Size, EightbyteType;
  }

  lemma PartOfEightbytes(fs: seq<LTy>, eb: nat)
    requires 8 * eb < Size(St(fs)) <= 16 && (Size(St(fs)) <= 8 ==> Full(Part(fs, 0)))
    ensures var c := EightbyteType(fs);
            && (Size(St(fs)) <= 8 ==> c.Sc?) && (Size(St(fs)) > 8 ==> c.St? && |c.fields| == 2)
            && RegisterOf(c, eb) == Part(fs, eb)
  {
    hide Size, Part;
  }

  /** A float before a double is alone in its eightbyte, which is passed as two floats all the same. */
  lemma PaddedFloat(target: Target)
    requires target.X64Windows? || target.OtherTarget?
    ensures var fs := [F32, F64];
            Coerced(target, fs) == Some(St([V2F32, F64])) && LeafAt(St(fs), 0) == Some(F32) && LeafAt(St(fs), 4) == None
  {
    PaddedParts([F32, F64]);
  }

  lemma PaddedParts(fs: seq<LTy>)
    requires |fs| == 2 && fs[0] == F32 && fs[1] == F64
    ensures Size(St(fs)) == 16 && EightbyteType(fs) == St([V2F32, F64])
    ensures LeafAt(St(fs), 0) == Some(F32) && LeafAt(St(fs), 4) == None
  {
    assert Align(F32) == 4 && Align(F64) == 8;
    PaddedOffsets(fs);
    PaddedLeaves(fs);
    hide Offset, AlignAll, End, LeafAtFrom;
    assert Touches(fs, 0, 0) && !Touches(fs, 1, 0) && !Touches(fs, 0, 1) && Touches(fs, 1, 1);
    assert Sse(fs, 0) && Sse(fs, 1);
    assert !AnyDouble(fs, 2, 0) && AnyDouble(fs, 2, 1);
    assert Part(fs, 0) == V2F32 && Part(fs, 1) == F64;
  }

  lemma PaddedOffsets(fs: seq<LTy>)
    requires |fs| == 2 && fs[0] == F32 && fs[1] == F64
    ensures Offset(fs, 0) == 0 && Offset(fs, 1) == 8 && Size(St(fs)) == 16
  {
    PaddedFields(fs);
    hide *;
    TwoFields(fs, 0);
    StructSize(fs);
    OffsetIs(fs, 0);
    OffsetIs(fs, 1);
    NextOffset(fs, 0, 0);
    NextOffset(fs, 0, 1);
    PaddedUps();
  }

  lemma PaddedFields(fs: seq<LTy>)
    requires |fs| == 2 && fs[0] == F32 && fs[1] == F64
    ensures Size(fs[0]) == 4 && Align(fs[0]) == 4 && Size(fs[1]) == 8 && Align(fs[1]) == 8
    ensures LeafAt(fs[0], 0) == Some(F32)
  {
  }

  lemma PaddedUps()
    ensures AlignUp(0, 4) == 0 && AlignUp(4, 8) == 8 && AlignUp(16, 8) == 16 && MaxAlign(4, 8) == 8
  {
  }

  lemma StructSize(fs: seq<LTy>)
    ensures Size(St(fs)) == AlignUp(End(fs, 0), AlignAll(fs))
  {
  }

  lemma PaddedLeaves(fs: seq<LTy>)
    requires |fs| == 2 && fs[0] == F32 && fs[1] == F64
    ensures LeafAt(St(fs), 0) == Some(F32) && LeafAt(St(fs), 4) == None
  {
    hide *;
    PaddedFields(fs);
    PaddedUps();
    FirstOf(fs, 0);
    FirstOf(fs, 4);
    PaddingAt(fs[1..]);
  }

  lemma PaddingAt(fs: seq<LTy>)
    requires |fs| == 1 && Align(fs[0]) == 8
    ensures LeafAtFrom(fs, 4, 4) == None
  {
    hide *;
    PaddedUps();
    LeafFromHead(fs, 4, 4);
    NoLeaf(fs[1..], AlignUp(4, 8) + Size(fs[0]), 4);
  }

  lemma LeafFromHead(fs: seq<LTy>, at: nat, k: nat)
    requires fs != []
    ensures var off := AlignUp(at, Align(fs[0]));
            LeafAtFrom(fs, at, k) ==
            if off <= k < off + Size(fs[0]) then LeafAt(fs[0], k - off) else LeafAtFrom(fs[1..], off + Size(fs[0]), k)
  {
    hide AlignUp, Size, Align, LeafAt;
  }

  lemma NoLeaf(fs: seq<LTy>, at: nat, k: nat)
    requires fs == []
    ensures LeafAtFrom(fs, at, k) == None
  {
  }

  /** A struct that only wraps another type. */
  lemma Wrapped(t: LTy, k: nat)
    requires k < Size(t)
    ensures Align(St([t])) == Align(t) && Size(St([t])) == Size(t) && LeafAt(St([t]), k) == LeafAt(t, k)
    ensures Offset([t], 0) == 0
  {
    SizeAligned(t);
    OneField([t], 0, k);
    hide AlignAll, End, IsDataFrom, LeafAtFrom;
  }

  /** Two floats in a nested struct: the standard passes them in a vector register, the generator does not. */
  lemma NestedFloatsDiffer()
    ensures StandardSse(St([St([F32, F32])]), 0) && Coerced(OtherTarget, [St([F32, F32])]) == Some(I64)
  {
    var t := St([F32, F32]);
    forall k | 0 <= k < 8 ensures LeafKind(St([t]), k) == Some(KFloat) {
      PairLayout([F32, F32], k);
      Wrapped(t, k);
    }
    PairLayout([F32, F32], 0);
    Wrapped(t, 0);
    hide Size, Align, LeafAt, Offset;
    assert LeafKind(St([t]), 0) == Some(KFloat);
    assert Touches([t], 0, 0);
  }

  // ----- the homogeneous aggregates of the standard -----

  /** The scalars of a type at any depth, in order. */
  function Scalars(t: LTy): seq<LTy>
    decreases t, 1
  {
    match t
    case Sc(_, _, _) => [t]
    case Arr(e, n) => Copies(Scalars(e), n)
    case St(fs) => ScalarsAll(fs)
  }

  function ScalarsAll(fs: seq<LTy>): seq<LTy>
    decreases fs, 0
  {
    if fs == [] then [] else Scalars(fs[0]) + ScalarsAll(fs[1..])
  }

  function Copies(ts: seq<LTy>, n: nat): seq<LTy> {
    if n == 0 then [] else ts + Copies(ts, n - 1)
  }

  /** The homogeneous floating-point aggregates of AAPCS64: one to four scalars at any depth, all of one float
      type. */
  predicate StandardHomogeneous(fs: seq<LTy>) {
    var ss := ScalarsAll(fs);
    && 1 <= |ss| <= 4 && (ss[0] == F32 || ss[0] == F64)
    && forall i :: 0 <= i < |ss| ==> ss[i] == ss[0]
  }

  predicate AllScalars(fs: seq<LTy>) {
    forall i :: 0 <= i < |fs| ==> fs[i].Sc?
  }

  lemma {:induction false} OnlyScalars(t: LTy)
    ensures AllScalars(Scalars(t))
    decreases t, 1
  {
    match t
    case Sc(_, _, _) =>
    case Arr(e, n) =>
      OnlyScalars(e);
      CopiesScalars(Scalars(e), n);
    case St(fs) => OnlyScalarsAll(fs);
  }

  lemma {:induction false} OnlyScalarsAll(fs: seq<LTy>)
    ensures AllScalars(ScalarsAll(fs))
    decreases fs, 0
  {
    if fs != [] {
      OnlyScalars(fs[0]);
      OnlyScalarsAll(fs[1..]);
    }
  }

  lemma {:induction false} CopiesScalars(ts: seq<LTy>, n: nat)
    requires AllScalars(ts)
    ensures AllScalars(Copies(ts, n))
  {
    if n > 0 {
      CopiesScalars(ts, n - 1);
    }
  }

  lemma {:induction false} ScalarsOfScalars(fs: seq<LTy>)
    requires AllScalars(fs)
    ensures ScalarsAll(fs) == fs
  {
    if fs != [] {
      ScalarsOfScalars(fs[1..]);
      assert fs == [fs[0]] + fs[1..];
    }
  }

  /** Equal scalars lie side by side. */
  lemma {:induction false} SameFieldsFrom(fs: seq<LTy>, e: LTy, k: nat)
    requires Full(e) && forall i :: 0 <= i < |fs| ==> fs[i] == e
    ensures End(fs, k * e.size) == (k + |fs|) * e.size
    decreases |fs|
  {
    if fs != [] {
      MulAligned(e.size, k, e.size);
      assert AlignUp(k * e.size, e.size) == k * e.size;
      assert k * e.size + e.size == (k + 1) * e.size;
      SameFieldsFrom(fs[1..], e, k + 1);
      hide AlignUp;
    }
  }

  lemma SameFields(fs: seq<LTy>, e: LTy)
    requires fs != [] && Full(e) && forall i :: 0 <= i < |fs| ==> fs[i] == e
    ensures Size(St(fs)) == |fs| * e.size && Align(St(fs)) == e.size
  {
    SameFieldsFrom(fs, e, 0);
    HomogeneousAlign(fs, e);
    MulAligned(e.size, |fs|, e.size);
    hide AlignUp, End, AlignAll;
  }

  /** The generator looks at top-level fields only: it finds the homogeneous aggregates of the standard except
      those with an array or a nested struct among their fields. */
  lemma HomogeneousMeetsStandard(fs: seq<LTy>)
    ensures (Homogeneous(fs).Some? <==> StandardHomogeneous(fs)) <==> !(StandardHomogeneous(fs) && !AllScalars(fs))
  {
    hide Size, Align;
    if AllScalars(fs) {
      ScalarsOfScalars(fs);
      if StandardHomogeneous(fs) {
        SameFields(fs, fs[0]);
      }
    } else {
      var i :| 0 <= i < |fs| && !fs[i].Sc?;
      assert Homogeneous(fs).None?;
    }
  }

  /** What AArch64 passes: an array of the floats of a homogeneous aggregate without nested scalars, one integer
      of eight bytes or two of them for any other struct that fits, nothing for the rest. */
  lemma ArmRegisters(target: Target, fs: seq<LTy>)
    requires target.Aarch64? || target.Arm64?
    ensures var ss, size := ScalarsAll(fs), Size(St(fs));
            Coerced(target, fs) ==
            if StandardHomogeneous(fs) && AllScalars(fs) then Some(Arr(ss[0], |ss|))
            else if size == 0 || size > 16 then None
            else Some(if size <= 8 then I64 else Arr(I64, 2))
  {
    hide Size, Align;
    if AllScalars(fs) {
      ScalarsOfScalars(fs);
      if StandardHomogeneous(fs) {
        SameFields(fs, fs[0]);
        assert |fs| * fs[0].size > 0;
      }
    } else {
      var i :| 0 <= i < |fs| && !fs[i].Sc?;
      assert Homogeneous(fs).None?;
    }
  }

  // ----- declarations and calls -----

  /** A parameter type is a struct or has a machine type of its own. */
  datatype Ty = Struct(fields: seq<LTy>) | Plain(machine: LTy) | Void

  type ParamTy = t: Ty | !t.Void? witness Plain(I8)

  datatype Extern = Extern(params: seq<ParamTy>, ret: Ty, variadic: bool)

  /** An argument is a place of some type, or a constant, which takes the type that is asked of it. */
  datatype Arg = Place(ty: ParamTy) | Constant(natural: LTy)

  const Pointer: LTy := Sc(KPtr, 8, false)

  function MachineType(t: ParamTy): LTy {
    if t.Struct? then St(t.fields) else t.machine
  }

  function CoercedTy(target: Target, t: Ty): Option<LTy> {
    if t.Struct? then Coerced(target, t.fields) else None
  }

  /** Structs that are passed and returned through a pointer. */
  predicate ByPointer(target: Target, t: Ty) {
    t.Struct? && !(target.IsArm() && Homogeneous(t.fields).Some?) && Size(St(t.fields)) > 16
  }

  /** A struct with any bytes is passed in exactly one of the two ways, on every target; one without bytes
      is passed as it is. */
  lemma ExactlyOneWay(target: Target, fs: seq<LTy>)
    ensures Size(St(fs)) > 0 ==> (CoercedTy(target, Struct(fs)).Some? <==> !ByPointer(target, Struct(fs)))
    ensures Size(St(fs)) == 0 ==> CoercedTy(target, Struct(fs)).None? && !ByPointer(target, Struct(fs))
  {
    hide EightbyteType, Size;
    if Homogeneous(fs).Some? {
      assert |fs| * fs[0].size <= 32;
    }
  }

  function DeclaredParam(target: Target, t: ParamTy): LTy {
    var c := CoercedTy(target, t);
    if c.Some? then c.value else if ByPointer(target, t) then Pointer else MachineType(t)
  }

  function DeclaredParams(target: Target, d: Extern): (r: seq<LTy>) {
    (if ByPointer(target, d.ret) then [Pointer] else []) +
      seq(|d.params|, i requires 0 <= i < |d.params| => DeclaredParam(target, d.params[i]))
  }

  /** The result type of the declaration; none is the machine's void. */
  function DeclaredResult(target: Target, d: Extern): Option<LTy> {
    if ByPointer(target, d.ret) then None
    else
      var c := CoercedTy(target, d.ret);
      if c.Some? then c else if d.ret.Void? then None else Some(MachineType(d.ret))
  }

  /** Structs too large for registers go through memory; on AArch64 those are not homogeneous aggregates of
      top-level floats. */
  predicate InMemory(target: Target, t: Ty) {
    && t.Struct? && Size(St(t.fields)) > 16
    && !(target.IsArm() && StandardHomogeneous(t.fields) && AllScalars(t.fields))
  }

  /** What a declaration passes in place of a value of type `t`, pointers for structs in memory apart. */
  function InPlaceOf(target: Target, t: ParamTy): LTy
    requires !InMemory(target, t)
  {
    if t.Struct? && Size(St(t.fields)) > 0 then
      ExactlyOneWay(target, t.fields);
      MemoryIs(target, t);
      Coerced(target, t.fields).value
    else MachineType(t)
  }

  lemma MemoryIs(target: Target, t: Ty)
    ensures InMemory(target, t) <==> ByPointer(target, t)
  {
    if t.Struct? {
      HomogeneousMeetsStandard(t.fields);
      if Homogeneous(t.fields).Some? {
        assert AllScalars(t.fields);
        ScalarsOfScalars(t.fields);
      }
    }
    hide Homogeneous, StandardHomogeneous, AllScalars, Size;
  }

  /** The declared signature: a pointer comes first and nothing is returned when the result is a struct in memory;
      otherwise the result, if any, is what stands in its place.  Every parameter follows in order, a pointer for a
      struct in memory. */
  lemma SignatureIs(target: Target, d: Extern)
    ensures var ps, r := DeclaredParams(target, d), DeclaredResult(target, d);
            var first := if InMemory(target, d.ret) then 1 else 0;
            && |ps| == first + |d.params| && (first == 1 ==> ps[0] == Pointer)
            && (forall i :: 0 <= i < |d.params| ==>
                  ps[first + i] ==
                  if InMemory(target, d.params[i]) then Pointer else InPlaceOf(target, d.params[i]))
            && r == if InMemory(target, d.ret) || d.ret.Void? then None else Some(InPlaceOf(target, d.ret))
  {
    hide Coerced, InMemory, Homogeneous, Size, ByPointer;
    forall t: Ty ensures InMemory(target, t) <==> ByPointer(target, t) {
      MemoryIs(target, t);
    }
    forall fs: seq<LTy>
      ensures Size(St(fs)) > 0 ==> (Coerced(target, fs).Some? <==> !ByPointer(target, Struct(fs)))
      ensures Size(St(fs)) == 0 ==> Coerced(target, fs).None? && !ByPointer(target, Struct(fs))
    {
      ExactlyOneWay(target, fs);
    }
  }

  method DeclareExtern(target: Target, d: Extern) returns (params: seq<LTy>, ret: Option<LTy>)
    ensures params == DeclaredParams(target, d) && ret == DeclaredResult(target, d)
  {
    hide Coerced, ByPointer;
    params := [];
    if ByPointer(target, d.ret) {
      params := [Pointer];
    }
    ghost var first := params;
    for i := 0 to |d.params|
      invariant params == first + seq(i, j requires 0 <= j < i => DeclaredParam(target, d.params[j]))
    {
      var c := None;
      if d.params[i].Struct? {
        c := CoerceType(target, d.params[i].fields);
      }
      params := params + [if c.Some? then c.value else if ByPointer(target, d.params[i]) then Pointer
        else MachineType(d.params[i])];
    }
    var c := None;
    if d.ret.Struct? {
      c := CoerceType(target, d.ret.fields);
    }
    ret := if ByPointer(target, d.ret) then None else if c.Some? then c else if d.ret.Void? then None
      else Some(MachineType(d.ret));
  }

  /** An argument fits a parameter: a place of the same type, or a constant where no struct is asked for. */
  predicate Fits(a: Arg, t: ParamTy) {
    match a
    case Place(ty) => ty == t
    case Constant(_) => t.Plain?
  }

  /** The machine values that a call passes, by their types; the call looks for by-pointer passing first
      and converts arguments that do not have the parameter's type. */
  method CallExtern(target: Target, d: Extern, args: seq<Arg>) returns (passed: seq<LTy>)
    requires |args| >= |d.params| && forall i :: 0 <= i < |d.params| ==> Fits(args[i], d.params[i])
    ensures |passed| >= |DeclaredParams(target, d)|
    ensures passed[..|DeclaredParams(target, d)|] == DeclaredParams(target, d)
    ensures |args| == |d.params| ==> passed == DeclaredParams(target, d)
  {
    hide Coerced, EightbyteType, Homogeneous, Size;
    passed := [];
    for i := 0 to |args|
      invariant |passed| == i
      invariant forall j :: 0 <= j < i && j < |d.params| ==> passed[j] == DeclaredParam(target, d.params[j])
    {
      var ty: LTy;
      if i < |d.params| {
        var p := d.params[i];
        if args[i].Constant? || args[i].ty != p {
          ty := MachineType(p);
        } else if ByPointer(target, p) {
          ExactlyOneWay(target, p.fields);
          ty := Pointer;
        } else {
          var c := None;
          if p.Struct? {
            c := CoerceType(target, p.fields);
          }
          ty := if c.Some? && c.value != MachineType(p) then c.value else MachineType(p);
        }
      } else {
        ty := if args[i].Place? then MachineType(args[i].ty) else args[i].natural;
      }
      passed := passed + [ty];
    }
    if ByPointer(target, d.ret) {
      passed := [Pointer] + passed;
    }
    assert passed[..|DeclaredParams(target, d)|] == DeclaredParams(target, d);
  }

  // ----- byval attributes -----

  /** Only triples that start with the one spelling of the architecture are exempted here, although both
      spellings select the homogeneous-aggregate rules. */
  predicate StructArgsByval(target: Target) {
    !target.Aarch64? && !target.X64Windows?
  }

  /** The positions that carry the attribute, counted with a shift. */
  function ByvalAt(target: Target, d: Extern, shift: nat): set<nat> {
    set i | 0 <= i < |d.params| && StructArgsByval(target) && ByPointer(target, d.params[i]) :: i + shift
  }

  /** A declaration shifts the positions past the result pointer. */
  function DeclaredByval(target: Target, d: Extern): set<nat> {
    ByvalAt(target, d, if ByPointer(target, d.ret) then 1 else 0)
  }

  /** A call does not. */
  function CalledByval(target: Target, d: Extern): set<nat> {
    ByvalAt(target, d, 0)
  }

  /** The attribute positions of call and declaration agree exactly when there is no result pointer or no
      parameter carries the attribute. */
  lemma ByvalAgrees(target: Target, d: Extern)
    ensures DeclaredByval(target, d) == CalledByval(target, d) <==>
            !ByPointer(target, d.ret) || !StructArgsByval(target) || forall p :: p in d.params ==> !ByPointer(target, p)
  {
    hide ByPointer;
    if ByPointer(target, d.ret) && StructArgsByval(target) {
      if i :| 0 <= i < |d.params| && ByPointer(target, d.params[i]) {
        var least := LeastByPointer(target, d.params, i);
        assert least in CalledByval(target, d);
        assert least !in DeclaredByval(target, d);
      }
    }
  }

  /** The two spellings of one architecture give the same attributes exactly when no parameter is passed by
      pointer: only one of them is exempted. */
  lemma SpellingsAgree(d: Extern)
    ensures DeclaredByval(Arm64, d) == DeclaredByval(Aarch64, d) <==> forall p :: p in d.params ==> !ByPointer(Arm64, p)
    ensures DeclaredParams(Arm64, d) == DeclaredParams(Aarch64, d)
  {
    hide Homogeneous, Size;
    assert forall t :: ByPointer(Arm64, t) == ByPointer(Aarch64, t);
    assert forall fs :: Coerced(Arm64, fs) == Coerced(Aarch64, fs);
    var shift := if ByPointer(Arm64, d.ret) then 1 else 0;
    assert DeclaredByval(Aarch64, d) == {};
    if i :| 0 <= i < |d.params| && ByPointer(Arm64, d.params[i]) {
      assert i + shift in DeclaredByval(Arm64, d);
    }
  }

  /** A struct of three 64-bit integers carries the attribute under one spelling only. */
  lemma SpellingsDiffer()
    ensures var d := Extern([Struct([I64, I64, I64])], Void, false);
            DeclaredByval(Arm64, d) == {0} && DeclaredByval(Aarch64, d) == {}
  {
    var fs := [I64, I64, I64];
    SameFields(fs, I64);
    var d := Extern([Struct(fs)], Void, false);
    assert !IsFloat(fs[0]);
    assert ByPointer(Arm64, d.params[0]);
    assert 0 in DeclaredByval(Arm64, d);
  }

  lemma {:induction false} LeastByPointer(target: Target, ps: seq<ParamTy>, i: nat) returns (k: nat)
    requires i < |ps| && ByPointer(target, ps[i])
    ensures k < |ps| && ByPointer(target, ps[k]) && forall j :: 0 <= j < k ==> !ByPointer(target, ps[j])
    decreases i
  {
    hide ByPointer;
    if j :| 0 <= j < i && ByPointer(target, ps[j]) {
      k := LeastByPointer(target, ps, j);
    } else {
      k := i;
    }
  }
}
