/**
 The layout engine, the machine types the backend builds for the same shapes, and the opaque union that
 stands for the payloads of an enum.  The backend asserts in debug builds that the two agree.
 */
module LayoutEngine {
  import opened Wrappers
  import opened Arith
  import opened LlvmLayout

  type PtrSize = n: ScalarSize | n == 4 || n == 8 witness 8

  /** What the model needs of a data layout: the size of pointers, and whether eight-byte scalars are aligned
      to four bytes only, which some 32-bit targets do. */
  datatype DataLayout = DataLayout(pointer: PtrSize, low: bool)

  type Platform = d: DataLayout | d.low ==> d.pointer == 4 witness DataLayout(8, false)

  datatype Shape =
    | SInt(size: ScalarSize)
    | SFloat(wide: bool)
    | SBool
    | SChar
    | SIsize
    | SPointer
    | SVoid
    | SNever
    | SArray(elem: Shape, len: nat)
    | SStruct(fields: seq<Shape>)
    | SEnum(variants: seq<Variant>)

  datatype Variant = Bare | Carries(payload: Shape)

  datatype Layout = Layout(size: nat, align: ScalarSize)

  // ----- the layout engine -----

  function EngineLayout(p: PtrSize, s: Shape): Layout
    decreases s, 1
  {
    match s
    case SInt(n) => Layout(n, n)
    case SFloat(wide) => if wide then Layout(8, 8) else Layout(4, 4)
    case SBool => Layout(1, 1)
    case SChar => Layout(1, 1)
    case SIsize => Layout(p, p)
    case SPointer => Layout(p, p)
    case SVoid => Layout(0, 1)
    case SNever => Layout(0, 1)
    case SArray(e, n) => Layout(EngineLayout(p, e).size * n, EngineLayout(p, e).align)
    case SStruct(fs) => StructLayout(EngineLayouts(p, fs))
    case SEnum(vs) => EnumLayout(vs, EnginePayloads(p, vs))
  }

  function EngineLayouts(p: PtrSize, fs: seq<Shape>): (ls: seq<Layout>)
    ensures |ls| == |fs|
    decreases fs, 0
  {
    if fs == [] then [] else [EngineLayout(p, fs[0])] + EngineLayouts(p, fs[1..])
  }

  function EnginePayloads(p: PtrSize, vs: seq<Variant>): (ls: seq<Layout>)
    ensures |ls| == |Payloads(vs)|
    decreases vs, 0
  {
    if vs == [] then []
    else if vs[0].Carries? then [EnginePayload(p, vs[0])] + EnginePayloads(p, vs[1..])
    else EnginePayloads(p, vs[1..])
  }

  function EnginePayload(p: PtrSize, v: Variant): Layout
    requires v.Carries?
    decreases v, 0
  {
    EngineLayout(p, v.payload)
  }

  function Payloads(vs: seq<Variant>): seq<Shape> {
    if vs == [] then [] else (if vs[0].Carries? then [vs[0].payload] else []) + Payloads(vs[1..])
  }

  /** Fields one after the other, each rounded up to its alignment; an empty struct has no size. */
  function StructLayout(fields: seq<Layout>): Layout {
    if fields == [] then Layout(0, 1)
    else
      var l := FoldFields(fields, 0, 1);
      Layout(AlignUp(l.size, l.align), l.align)
  }

  function FoldFields(fields: seq<Layout>, size: nat, align: ScalarSize): Layout {
    if fields == [] then Layout(size, align)
    else FoldFields(fields[1..], AlignUp(size, fields[0].align) + fields[0].size, MaxAlign(align, fields[0].align))
  }

  function EnumLayout(vs: seq<Variant>, payloads: seq<Layout>): Layout
    requires |payloads| == |Payloads(vs)|
  {
    if payloads == [] then Layout(1, 1)
    else
      var union :=
        if |payloads| == 1 then
          if Payloads(vs)[0].SVoid? || Payloads(vs)[0].SNever? then Layout(1, 1) else payloads[0]
        else UnionLayout(MaxSize(payloads), MaxAlignOf(payloads));
      StructLayout([Layout(1, 1), union])
  }

  function MaxSize(ls: seq<Layout>): nat {
    if ls == [] then 0 else Max(ls[0].size, MaxSize(ls[1..]))
  }

  function MaxAlignOf(ls: seq<Layout>): ScalarSize {
    if ls == [] then 1 else MaxAlign(ls[0].align, MaxAlignOf(ls[1..]))
  }

  function UnionLayout(size: nat, align: ScalarSize): Layout {
    if size == 0 then Layout(1, 1)
    else
      var rest := size % align;
      if rest == 0 then Layout(size, align)
      else StructLayout([Layout(size - rest, align), Layout(rest, 1)])
  }

  // ----- the machine types of the backend -----

  /** Values of this shape have a machine type: void and never occur only as enum payloads, and never not
      even there. */
  predicate Sized(s: Shape)
    decreases s, 1
  {
    match s
    case SVoid => false
    case SNever => false
    case SArray(e, _) => Sized(e)
    case SStruct(fs) => SizedAll(fs)
    case SEnum(vs) => SizedPayloads(vs)
    case _ => true
  }

  predicate SizedAll(fs: seq<Shape>)
    decreases fs, 0
  {
    fs == [] || (Sized(fs[0]) && SizedAll(fs[1..]))
  }

  predicate SizedPayloads(vs: seq<Variant>)
    decreases vs, 0
  {
    vs == [] || (SizedPayload(vs[0]) && SizedPayloads(vs[1..]))
  }

  predicate SizedPayload(v: Variant)
    decreases v, 0
  {
    v.Bare? || v.payload.SVoid? || Sized(v.payload)
  }

  function Machine(p: Platform, s: Shape): LTy
    requires Sized(s)
    decreases s, 1
  {
    match s
    case SInt(n) => Sc(KInt, n, p.low && n == 8)
    case SFloat(wide) => if wide then Sc(KFloat, 8, p.low) else F32
    case SBool => I8
    case SChar => I8
    case SIsize => Sc(KInt, p.pointer, false)
    case SPointer => Sc(KPtr, p.pointer, false)
    case SArray(e, n) => Arr(Machine(p, e), n)
    case SStruct(fs) => St(Machines(p, fs))
    case SEnum(vs) => EnumTy(PayloadTys(p, vs))
  }

  function Machines(p: Platform, fs: seq<Shape>): (ts: seq<LTy>)
    requires SizedAll(fs)
    ensures |ts| == |fs|
    decreases fs, 0
  {
    if fs == [] then [] else [Machine(p, fs[0])] + Machines(p, fs[1..])
  }

  /** The machine types of the payloads, in order; a void payload has none. */
  function PayloadTys(p: Platform, vs: seq<Variant>): (ts: seq<Option<LTy>>)
    requires SizedPayloads(vs)
    ensures |ts| == |Payloads(vs)|
    decreases vs, 0
  {
    if vs == [] then []
    else if vs[0].Bare? then PayloadTys(p, vs[1..])
    else [PayloadTy(p, vs[0])] + PayloadTys(p, vs[1..])
  }

  function PayloadTy(p: Platform, v: Variant): Option<LTy>
    requires v.Carries? && SizedPayload(v)
    decreases v, 0
  {
    if v.payload.SVoid? then None else Some(Machine(p, v.payload))
  }

  function Measure(t: Option<LTy>): Layout {
    if t.None? then Layout(0, 1) else Layout(Size(t.value), Align(t.value))
  }

  function Measures(ts: seq<Option<LTy>>): (ls: seq<Layout>)
    ensures |ls| == |ts|
  {
    if ts == [] then [] else [Measure(ts[0])] + Measures(ts[1..])
  }

  /** A bare tag, or a tag followed by a union of the payloads. */
  function EnumTy(payloads: seq<Option<LTy>>): LTy {
    if payloads == [] then I8 else St([I8, UnionTy(payloads)])
  }

  function UnionTy(payloads: seq<Option<LTy>>): LTy
    requires payloads != []
  {
    if |payloads| == 1 then if payloads[0].None? then I8 else payloads[0].value
    else
      var size := MaxSize(Measures(payloads));
      if size == 0 then I8 else OpaqueUnion(size, MaxAlignOf(Measures(payloads)))
  }

  /** Words of the greatest alignment, then single bytes for what is left over. */
  function OpaqueUnion(size: nat, align: ScalarSize): LTy {
    if align < 2 then Arr(I8, size)
    else
      var words := Arr(Sc(KInt, align, false), size / align);
      if size % align == 0 then words else St([words, Arr(I8, size % align)])
  }

  // ----- the union holds every payload -----

  lemma ArrayOfScalars(k: ScalarSize, n: nat, b: nat)
    ensures Size(Arr(Sc(KInt, k, false), n)) == k * n && Align(Arr(Sc(KInt, k, false), n)) == k
    ensures b < k * n ==> IsData(Arr(Sc(KInt, k, false), n), b)
  {
  }

  /** The union is as large as asked, has the alignment asked for, and has no padding before its size. */
  lemma OpaqueUnionOk(size: nat, align: ScalarSize)
    ensures var u := OpaqueUnion(size, align);
            && Align(u) == align
            && Size(u) == AlignUp(size, align)
            && forall b :: 0 <= b < size ==> IsData(u, b)
  {
    if align < 2 {
      BytesOk(size);
      EveryDivides(size);
      hide *;
    } else {
      var n, rest := size / align, size % align;
      WordsOk(align, n, size - rest);
      if rest > 0 {
        var words := Arr(Sc(KInt, align, false), n);
        WordsAndTail(words, rest, [words, Arr(I8, rest)]);
      }
      hide *;
    }
  }

  /** Words without padding, then single bytes. */
  lemma WordsAndTail(words: LTy, rest: nat, fs: seq<LTy>)
    requires |fs| == 2 && fs[0] == words && fs[1] == Arr(I8, rest)
    requires forall b :: 0 <= b < Size(words) ==> IsData(words, b)
    ensures Align(St(fs)) == Align(words) && Size(St(fs)) == AlignUp(Size(words) + rest, Align(words))
    ensures forall b :: 0 <= b < Size(words) + rest ==> IsData(St(fs), b)
  {
    BytesOk(rest);
    hide *;
    var front := Size(words);
    EveryDivides(front);
    TwoFields(fs);
    MaxOne(Align(words));
    forall b | 0 <= b < front + rest ensures IsData(St(fs), b) {
      if b < front {
        DataOfField(fs, 0, b);
      } else {
        DataOfField(fs, 1, b - front);
      }
    }
  }

  lemma BytesOk(n: nat)
    ensures Size(Arr(I8, n)) == n && Align(Arr(I8, n)) == 1 && forall b :: 0 <= b < n ==> IsData(Arr(I8, n), b)
  {
    forall b | 0 <= b < n ensures IsData(Arr(I8, n), b) { ArrayOfScalars(1, n, b); }
    ArrayOfScalars(1, n, 0);
  }

  lemma WordsOk(align: ScalarSize, n: nat, front: nat)
    requires front == align * n
    ensures var words := Arr(Sc(KInt, align, false), n);
            Size(words) == front && Align(words) == align && forall b :: 0 <= b < front ==> IsData(words, b)
  {
    forall b | 0 <= b < front ensures IsData(Arr(Sc(KInt, align, false), n), b) { ArrayOfScalars(align, n, b); }
    ArrayOfScalars(align, n, 0);
    hide *;
  }

  lemma EveryDivides(n: nat)
    ensures n % 1 == 0
  {
  }

  lemma MaxOne(a: ScalarSize)
    ensures MaxAlign(a, 1) == a
  {
  }

  /** The layout of two fields of which the first has a size that suits the second. */
  lemma TwoFields(fs: seq<LTy>)
    requires |fs| == 2 && Size(fs[0]) % Align(fs[1]) == 0
    ensures Offset(fs, 0) == 0 && Offset(fs, 1) == Size(fs[0])
    ensures Align(St(fs)) == MaxAlign(Align(fs[0]), Align(fs[1]))
    ensures Size(St(fs)) == AlignUp(Size(fs[0]) + Size(fs[1]), MaxAlign(Align(fs[0]), Align(fs[1])))
  {
    hide *;
    assert fs[1..] == [fs[1]];
    OneField(fs[1], Size(fs[0]));
    FirstField(fs);
  }

  lemma OneField(b: LTy, at: nat)
    requires at % Align(b) == 0
    ensures AlignAll([b]) == Align(b) && End([b], at) == at + Size(b) && OffsetFrom([b], at, 0) == at
  {
    assert [b][1..] == [];
    hide Size, Align;
  }

  lemma FirstField(fs: seq<LTy>)
    requires |fs| == 2 && AlignAll(fs[1..]) == Align(fs[1])
    requires End(fs[1..], Size(fs[0])) == Size(fs[0]) + Size(fs[1])
    requires OffsetFrom(fs[1..], Size(fs[0]), 0) == Size(fs[0])
    ensures Offset(fs, 0) == 0 && Offset(fs, 1) == Size(fs[0])
    ensures Align(St(fs)) == MaxAlign(Align(fs[0]), Align(fs[1]))
    ensures Size(St(fs)) == AlignUp(Size(fs[0]) + Size(fs[1]), MaxAlign(Align(fs[0]), Align(fs[1])))
  {
    hide AlignUp, MaxAlign;
  }

  lemma {:induction false} MaxBounds(ls: seq<Layout>, i: nat)
    requires i < |ls|
    ensures ls[i].size <= MaxSize(ls) && MaxAlignOf(ls) % ls[i].align == 0
    decreases i
  {
    if i > 0 {
      MaxBounds(ls[1..], i - 1);
    }
  }

  lemma {:induction false} MeasuresAt(ts: seq<Option<LTy>>, i: nat)
    requires i < |ts|
    ensures Measures(ts)[i] == Measure(ts[i])
  {
    if i > 0 {
      MeasuresAt(ts[1..], i - 1);
    }
  }

  /** Every payload lies inside the union with all its data on data bytes.  It is aligned there, except
      when no payload has any bytes: then the union is a single byte, whatever alignment was asked for. */
  lemma UnionHolds(payloads: seq<Option<LTy>>, i: nat)
    requires i < |payloads| && payloads[i].Some?
    ensures var u := UnionTy(payloads); var t := payloads[i].value;
            && Covers(u, 0, t)
            && (Align(u) % Align(t) == 0 <==> |payloads| == 1 || MaxSize(Measures(payloads)) > 0 || Align(t) == 1)
  {
    if |payloads| == 1 {
      var t := payloads[0].value;
      hide Size, IsData, Align;
    } else {
      var ls := Measures(payloads);
      MeasuresAt(payloads, i);
      MaxBounds(ls, i);
      UnionCovers(payloads[i].value, MaxSize(ls), MaxAlignOf(ls));
      hide OpaqueUnion, Measures, MaxSize, MaxAlignOf, Size, Align, Covers;
    }
  }

  lemma UnionCovers(t: LTy, size: nat, align: ScalarSize)
    requires Size(t) <= size && align % Align(t) == 0
    ensures var u := if size == 0 then I8 else OpaqueUnion(size, align);
            Covers(u, 0, t) && (Align(u) % Align(t) == 0 <==> size > 0 || Align(t) == 1)
  {
    hide *;
    if size == 0 {
      ByteCovers(t);
    } else {
      OpaqueUnionOk(size, align);
      SolidCovers(OpaqueUnion(size, align), size, t);
    }
  }

  lemma ByteCovers(t: LTy)
    requires Size(t) == 0
    ensures Covers(I8, 0, t) && Align(I8) == 1 && (1 % Align(t) == 0 <==> Align(t) == 1)
  {
    hide IsData;
    forall k: nat | IsData(t, k) ensures false {
      DataBounded(t, k);
    }
    hide *;
    CoversByBytes(I8, 0, t);
    ByteShape();
    DividesOne(Align(t));
  }

  lemma ByteShape()
    ensures Size(I8) == 1 && Align(I8) == 1
  {
  }

  lemma DividesOne(a: nat)
    requires a >= 1
    ensures 1 % a == 0 <==> a == 1
  {
  }

  /** A type without padding below some size covers every type of at most that size. */
  lemma SolidCovers(u: LTy, size: nat, t: LTy)
    requires Size(t) <= size <= Size(u) && forall b :: 0 <= b < size ==> IsData(u, b)
    ensures Covers(u, 0, t)
  {
    hide Size, IsData;
    forall k: nat | IsData(t, k) ensures IsData(u, 0 + k) {
      DataBounded(t, k);
    }
  }

  // ----- the two layouts agree -----

  lemma FoldIsEndNil(size: nat, align: ScalarSize)
    ensures FoldFields([], size, align) == Layout(End([], size), MaxAlign(align, AlignAll([])))
  {
  }

  lemma FoldIsEndStep(ts: seq<LTy>, ls: seq<Layout>, size: nat, align: ScalarSize)
    requires |ls| == |ts| > 0 && ls[0] == Layout(Size(ts[0]), Align(ts[0]))
    ensures FoldFields(ls, size, align) ==
            FoldFields(ls[1..], AlignUp(size, ls[0].align) + ls[0].size, MaxAlign(align, ls[0].align))
    ensures End(ts, size) == End(ts[1..], AlignUp(size, ls[0].align) + ls[0].size)
    ensures AlignAll(ts) == MaxAlign(ls[0].align, AlignAll(ts[1..]))
  {
    hide AlignUp, Size, Align, MaxAlign;
  }

  lemma MaxAssoc(a: ScalarSize, b: ScalarSize, c: ScalarSize)
    ensures MaxAlign(MaxAlign(a, b), c) == MaxAlign(a, MaxAlign(b, c))
  {
  }

  lemma {:induction false} FoldIsEnd(ts: seq<LTy>, ls: seq<Layout>, size: nat, align: ScalarSize)
    requires |ls| == |ts| && forall i :: 0 <= i < |ts| ==> ls[i] == Layout(Size(ts[i]), Align(ts[i]))
    ensures FoldFields(ls, size, align) == Layout(End(ts, size), MaxAlign(align, AlignAll(ts)))
    decreases |ts|
  {
    hide *;
    if ts == [] {
      FoldIsEndNil(size, align);
    } else {
      FoldIsEndStep(ts, ls, size, align);
      MaxAssoc(align, ls[0].align, AlignAll(ts[1..]));
      FoldIsEnd(ts[1..], ls[1..], AlignUp(size, ls[0].align) + ls[0].size, MaxAlign(align, ls[0].align));
    }
  }

  /** A struct of the machine has the layout that the engine computes from the layouts of its fields. */
  lemma StructAgrees(ts: seq<LTy>, ls: seq<Layout>)
    requires |ls| == |ts| && forall i :: 0 <= i < |ts| ==> ls[i] == Layout(Size(ts[i]), Align(ts[i]))
    ensures StructLayout(ls) == Layout(Size(St(ts)), Align(St(ts)))
  {
    FoldIsEnd(ts, ls, 0, 1);
    assert ts == [] ==> End(ts, 0) == 0;
  }

  lemma UnionAgrees(size: nat, align: ScalarSize)
    requires size > 0
    ensures UnionLayout(size, align) == Layout(Size(OpaqueUnion(size, align)), Align(OpaqueUnion(size, align)))
  {
    OpaqueUnionOk(size, align);
    var rest := size % align;
    if rest != 0 {
      var words, tail := Arr(Sc(KInt, align, false), size / align), Arr(I8, rest);
      ArrayOfScalars(align, size / align, 0);
      ArrayOfScalars(1, rest, 0);
      assert size == align * (size / align) + rest;
      StructAgrees([words, tail], [Layout(size - rest, align), Layout(rest, 1)]);
    }
  }

  // ----- eight-byte scalars that reach the layout -----

  /** Values of the shape have bytes. */
  predicate HasBytes(s: Shape)
    decreases s, 1
  {
    match s
    case SVoid => false
    case SNever => false
    case SArray(e, n) => n > 0 && HasBytes(e)
    case SStruct(fs) => AnyBytes(fs)
    case _ => true
  }

  predicate AnyBytes(fs: seq<Shape>)
    decreases fs, 0
  {
    fs != [] && (HasBytes(fs[0]) || AnyBytes(fs[1..]))
  }

  /** An eight-byte scalar has a say in the layout of the shape: it is a part of it, also in an array without
      elements, but not among several enum payloads none of which has bytes. */
  predicate Wide(s: Shape)
    decreases s, 1
  {
    match s
    case SInt(n) => n == 8
    case SFloat(wide) => wide
    case SArray(e, _) => Wide(e)
    case SStruct(fs) => AnyWide(fs)
    case SEnum(vs) => WidePayload(vs) && (|Payloads(vs)| == 1 || AnyBytes(Payloads(vs)))
    case _ => false
  }

  predicate AnyWide(fs: seq<Shape>)
    decreases fs, 0
  {
    fs != [] && (Wide(fs[0]) || AnyWide(fs[1..]))
  }

  predicate WidePayload(vs: seq<Variant>)
    decreases vs, 0
  {
    vs != [] && (WideVariant(vs[0]) || WidePayload(vs[1..]))
  }

  predicate WideVariant(v: Variant)
    decreases v, 0
  {
    v.Carries? && Wide(v.payload)
  }

  // ----- which shapes have bytes -----

  predicate AnySize(ls: seq<Layout>) {
    ls != [] && (ls[0].size > 0 || AnySize(ls[1..]))
  }

  predicate AnyTySize(ts: seq<LTy>) {
    ts != [] && (Size(ts[0]) > 0 || AnyTySize(ts[1..]))
  }

  lemma {:induction false} FoldBytes(ls: seq<Layout>, size: nat, align: ScalarSize)
    ensures FoldFields(ls, size, align).size > 0 <==> size > 0 || AnySize(ls)
    decreases |ls|
  {
    if ls != [] {
      FoldBytes(ls[1..], AlignUp(size, ls[0].align) + ls[0].size, MaxAlign(align, ls[0].align));
      AlignUpBytes(size, ls[0].align);
      hide AlignUp, MaxAlign;
    }
  }

  lemma AlignUpBytes(x: nat, a: ScalarSize)
    ensures AlignUp(x, a) > 0 <==> x > 0
  {
    assert 0 % a == 0;
    hide AlignUp;
  }

  lemma StructBytes(ls: seq<Layout>)
    ensures StructLayout(ls).size > 0 <==> AnySize(ls)
  {
    if ls != [] {
      FoldBytes(ls, 0, 1);
      var l := FoldFields(ls, 0, 1);
      AlignUpBytes(l.size, l.align);
      hide AlignUp, FoldFields, AnySize;
    }
  }

  lemma {:induction false} EndBytes(ts: seq<LTy>, at: nat)
    ensures End(ts, at) > 0 <==> at > 0 || AnyTySize(ts)
    decreases |ts|
  {
    if ts != [] {
      EndBytes(ts[1..], AlignUp(at, Align(ts[0])) + Size(ts[0]));
      AlignUpBytes(at, Align(ts[0]));
      hide AlignUp, Size, Align;
    }
  }

  /** A struct of the machine has bytes when one of its fields does. */
  lemma MachineStructBytes(ts: seq<LTy>)
    ensures Size(St(ts)) > 0 <==> AnyTySize(ts)
  {
    hide *;
    EndBytes(ts, 0);
    AlignUpBytes(End(ts, 0), AlignAll(ts));
    StructSize(ts);
  }

  lemma StructSize(ts: seq<LTy>)
    ensures Size(St(ts)) == AlignUp(End(ts, 0), AlignAll(ts)) && Align(St(ts)) == AlignAll(ts)
  {
    hide AlignUp, End, AlignAll;
  }

  /** Engine and machine agree on which shapes have bytes, on every platform. */
  lemma {:induction false} BytesAgree(p: Platform, s: Shape)
    requires Sized(s)
    ensures HasBytes(s) <==> EngineLayout(p.pointer, s).size > 0
    ensures HasBytes(s) <==> Size(Machine(p, s)) > 0
    decreases s, 1
  {
    if s.SArray? {
      BytesAgree(p, s.elem);
      ArrayBytes(p, s.elem, s.len);
    } else if s.SStruct? {
      AnyBytesAgree(p, s.fields);
      StructBytes(EngineLayouts(p.pointer, s.fields));
      MachineStructBytes(Machines(p, s.fields));
      hide Size, StructLayout, Machines, EngineLayouts, AnyBytes, AnySize, AnyTySize;
    } else if s.SEnum? {
      EnumBytes(p, s.variants);
    } else {
      hide AlignUp;
    }
  }

  lemma ArrayBytes(p: Platform, e: Shape, n: nat)
    requires Sized(e)
    ensures EngineLayout(p.pointer, SArray(e, n)).size > 0 <==> n > 0 && EngineLayout(p.pointer, e).size > 0
    ensures Size(Machine(p, SArray(e, n))) > 0 <==> n > 0 && Size(Machine(p, e)) > 0
  {
    var x, y := EngineLayout(p.pointer, e).size, Size(Machine(p, e));
    assert EngineLayout(p.pointer, SArray(e, n)).size == x * n && Size(Machine(p, SArray(e, n))) == y * n;
    hide *;
    Product(x, n);
    Product(y, n);
  }

  lemma Product(x: nat, n: nat)
    ensures x * n > 0 <==> n > 0 && x > 0
  {
  }

  lemma EnumBytes(p: Platform, vs: seq<Variant>)
    requires SizedPayloads(vs)
    ensures EngineLayout(p.pointer, SEnum(vs)).size > 0 && Size(Machine(p, SEnum(vs))) > 0
  {
    var ls, ts := EnginePayloads(p.pointer, vs), PayloadTys(p, vs);
    if ts != [] {
      TaggedBytes(UnionTy(ts));
      EnumStruct(vs, ls);
    }
    hide UnionTy, EnumLayout, PayloadTys, EnginePayloads;
  }

  lemma TaggedBytes(u: LTy)
    ensures Size(St([I8, u])) > 0
  {
    var fs := [I8, u];
    assert Size(fs[0]) == 1;
    MachineStructBytes(fs);
  }

  function EngineUnion(vs: seq<Variant>, ls: seq<Layout>): Layout
    requires |ls| == |Payloads(vs)| && ls != []
  {
    if |ls| == 1 then if Payloads(vs)[0].SVoid? || Payloads(vs)[0].SNever? then Layout(1, 1) else ls[0]
    else UnionLayout(MaxSize(ls), MaxAlignOf(ls))
  }

  /** An enum with payloads has a tag, and the alignment of the union of the payloads. */
  lemma EnumStruct(vs: seq<Variant>, ls: seq<Layout>)
    requires |ls| == |Payloads(vs)| && ls != []
    ensures EnumLayout(vs, ls).size > 0 && EnumLayout(vs, ls).align == EngineUnion(vs, ls).align
  {
    TaggedLayout(EngineUnion(vs, ls));
    hide StructLayout, UnionLayout, MaxSize, MaxAlignOf;
  }

  lemma TaggedLayout(u: Layout)
    ensures StructLayout([Layout(1, 1), u]).size > 0 && StructLayout([Layout(1, 1), u]).align == u.align
  {
    var fields := [Layout(1, 1), u];
    StructBytes(fields);
    assert fields[0].size == 1;
    assert fields[1..] == [u] && fields[1..][1..] == [];
    var at := AlignUp(0, 1) + 1;
    assert FoldFields(fields[1..], at, 1).align == MaxAlign(1, u.align);
    assert FoldFields(fields, 0, 1) == FoldFields(fields[1..], at, MaxAlign(1, 1));
    hide AlignUp, FoldFields;
  }

  lemma {:induction false} AnyBytesAgree(p: Platform, fs: seq<Shape>)
    requires SizedAll(fs)
    ensures AnyBytes(fs) <==> AnySize(EngineLayouts(p.pointer, fs))
    ensures AnyBytes(fs) <==> AnyTySize(Machines(p, fs))
    decreases fs, 0
  {
    if fs != [] {
      BytesAgree(p, fs[0]);
      AnyBytesAgree(p, fs[1..]);
      hide Size, EngineLayout, Machine, HasBytes;
    }
  }

  /** The payloads of an enum have bytes when the measured sizes are not all zero. */
  lemma {:induction false} PayloadBytes(p: Platform, vs: seq<Variant>)
    requires SizedPayloads(vs)
    ensures AnyBytes(Payloads(vs)) <==> MaxSize(EnginePayloads(p.pointer, vs)) > 0
    ensures AnyBytes(Payloads(vs)) <==> MaxSize(Measures(PayloadTys(p, vs))) > 0
    decreases vs, 0
  {
    if vs != [] {
      PayloadBytes(p, vs[1..]);
      if vs[0].Carries? {
        OnePayloadBytes(p, vs[0]);
      }
      hide *;
      PayloadsStep(p, vs);
      if vs[0].Carries? {
        MaxSizeStep(EnginePayload(p.pointer, vs[0]), EnginePayloads(p.pointer, vs[1..]));
        MaxSizeStep(Measure(PayloadTy(p, vs[0])), Measures(PayloadTys(p, vs[1..])));
        AnyBytesStep(vs[0].payload, Payloads(vs[1..]));
      }
    } else {
      NoPayloads(p);
    }
  }

  lemma OnePayloadBytes(p: Platform, v: Variant)
    requires v.Carries? && SizedPayload(v)
    ensures HasBytes(v.payload) <==> EnginePayload(p.pointer, v).size > 0
    ensures HasBytes(v.payload) <==> Measure(PayloadTy(p, v)).size > 0
  {
    if !v.payload.SVoid? {
      BytesAgree(p, v.payload);
    }
    hide Size, Machine;
  }

  lemma MaxSizeStep(l: Layout, ls: seq<Layout>)
    ensures MaxSize([l] + ls) > 0 <==> l.size > 0 || MaxSize(ls) > 0
  {
    assert ([l] + ls)[1..] == ls;
  }

  lemma AnyBytesStep(s: Shape, fs: seq<Shape>)
    ensures AnyBytes([s] + fs) <==> HasBytes(s) || AnyBytes(fs)
  {
    assert ([s] + fs)[1..] == fs;
    hide HasBytes;
  }

  lemma NoPayloads(p: Platform)
    ensures Payloads([]) == [] && EnginePayloads(p.pointer, []) == [] && SizedPayloads([]) && PayloadTys(p, []) == []
    ensures Measures([]) == []
    ensures !AnyBytes([]) && MaxSize([]) == 0
  {
  }

  lemma PayloadsStep(p: Platform, vs: seq<Variant>)
    requires SizedPayloads(vs) && vs != []
    ensures SizedPayloads(vs[1..]) && SizedPayload(vs[0])
    ensures vs[0].Bare? ==>
              && Payloads(vs) == Payloads(vs[1..]) &&
                 EnginePayloads(p.pointer, vs) == EnginePayloads(p.pointer, vs[1..])
              && PayloadTys(p, vs) == PayloadTys(p, vs[1..])
    ensures vs[0].Carries? ==>
              && Payloads(vs) == [vs[0].payload] + Payloads(vs[1..])
              && EnginePayloads(p.pointer, vs) == [EnginePayload(p.pointer, vs[0])] + EnginePayloads(p.pointer, vs[1..])
              && PayloadTys(p, vs) == [PayloadTy(p, vs[0])] + PayloadTys(p, vs[1..])
              && Measures(PayloadTys(p, vs)) == [Measure(PayloadTy(p, vs[0]))] + Measures(PayloadTys(p, vs[1..]))
  {
    hide Size, Align, EngineLayout, Machine, Measure, EnginePayload, Sized, PayloadTy, SizedPayload;
  }

  lemma PayloadOf(p: Platform, v: Variant)
    requires SizedPayload(v)
    ensures v.Carries? ==> (PayloadTy(p, v).None? <==> v.payload.SVoid?) && !v.payload.SNever?
  {
    hide Size, Align, Machine;
  }

  // ----- where the two layouts differ -----

  /** An eight-byte scalar with a say gives a shape the alignment of eight in the engine. */
  lemma {:induction false} WideAlign(p: Platform, s: Shape)
    requires Wide(s) && Sized(s)
    ensures EngineLayout(p.pointer, s).align == 8
    decreases s, 1
  {
    if s.SArray? {
      WideAlign(p, s.elem);
    } else if s.SStruct? {
      AnyWideAlign(p, s.fields, 0, 1);
      hide AlignUp, FoldFields, EngineLayouts;
      StructAlign(EngineLayouts(p.pointer, s.fields));
    } else if s.SEnum? {
      WideEnum(p, s.variants);
    }
  }

  lemma StructAlign(ls: seq<Layout>)
    ensures StructLayout(ls).align == if ls == [] then 1 else FoldFields(ls, 0, 1).align
  {
    hide AlignUp, FoldFields;
  }

  lemma {:induction false} AnyWideAlign(p: Platform, fs: seq<Shape>, size: nat, align: ScalarSize)
    requires SizedAll(fs) && (AnyWide(fs) || align == 8)
    ensures FoldFields(EngineLayouts(p.pointer, fs), size, align).align == 8
    decreases fs, 0
  {
    hide *;
    if fs == [] {
      FoldNone(p.pointer, size, align);
      NoneWide();
    } else {
      FoldShapes(p.pointer, fs, size, align);
      AnyWideCons(fs);
      if Wide(fs[0]) {
        WideAlign(p, fs[0]);
      }
      var l := EngineLayout(p.pointer, fs[0]);
      MaxEight(align, l.align);
      AnyWideAlign(p, fs[1..], AlignUp(size, l.align) + l.size, MaxAlign(align, l.align));
    }
  }

  lemma NoneWide()
    ensures !AnyWide([])
  {
  }

  lemma AnyWideCons(fs: seq<Shape>)
    requires fs != [] && SizedAll(fs)
    ensures Sized(fs[0]) && SizedAll(fs[1..]) && (AnyWide(fs) <==> Wide(fs[0]) || AnyWide(fs[1..]))
  {
    hide Sized, Wide;
  }

  lemma MaxEight(a: ScalarSize, b: ScalarSize)
    ensures a == 8 || b == 8 ==> MaxAlign(a, b) == 8
  {
  }

  lemma FoldNone(p: PtrSize, size: nat, align: ScalarSize)
    ensures FoldFields(EngineLayouts(p, []), size, align) == Layout(size, align)
  {
  }

  lemma FoldShapes(p: PtrSize, fs: seq<Shape>, size: nat, align: ScalarSize)
    requires fs != []
    ensures var l := EngineLayout(p, fs[0]);
            FoldFields(EngineLayouts(p, fs), size, align) ==
            FoldFields(EngineLayouts(p, fs[1..]), AlignUp(size, l.align) + l.size, MaxAlign(align, l.align))
  {
    hide AlignUp, EngineLayout, MaxAlign;
    assert EngineLayouts(p, fs)[1..] == EngineLayouts(p, fs[1..]);
  }

  lemma {:induction false} WidePayloads(p: Platform, vs: seq<Variant>)
    requires WidePayload(vs) && SizedPayloads(vs)
    ensures EnginePayloads(p.pointer, vs) != [] && MaxAlignOf(EnginePayloads(p.pointer, vs)) == 8
    decreases vs, 0
  {
    if WideVariant(vs[0]) {
      WideVariantAlign(p, vs[0]);
    } else {
      WidePayloads(p, vs[1..]);
    }
    hide *;
    PayloadsStep(p, vs);
    if vs[0].Carries? {
      MaxAlignStep(EnginePayload(p.pointer, vs[0]), EnginePayloads(p.pointer, vs[1..]));
    }
    WidePayloadStep(vs);
  }

  lemma {:induction false} WideVariantAlign(p: Platform, v: Variant)
    requires WideVariant(v) && SizedPayload(v)
    ensures EnginePayload(p.pointer, v).align == 8
    decreases v, 0
  {
    WideAlign(p, v.payload);
  }

  lemma WidePayloadStep(vs: seq<Variant>)
    requires WidePayload(vs)
    ensures vs != [] && (WideVariant(vs[0]) || WidePayload(vs[1..])) && (WideVariant(vs[0]) ==> vs[0].Carries?)
  {
  }

  lemma MaxAlignStep(l: Layout, ls: seq<Layout>)
    ensures MaxAlignOf([l] + ls) == MaxAlign(l.align, MaxAlignOf(ls))
    ensures [l] + ls != [] && (l.align == 8 || MaxAlignOf(ls) == 8 ==> MaxAlignOf([l] + ls) == 8)
    ensures l.align <= 4 && MaxAlignOf(ls) <= 4 ==> MaxAlignOf([l] + ls) <= 4
  {
    assert ([l] + ls)[1..] == ls;
  }

  lemma WideEnum(p: Platform, vs: seq<Variant>)
    requires Wide(SEnum(vs)) && SizedPayloads(vs)
    ensures EngineLayout(p.pointer, SEnum(vs)).align == 8
    decreases vs, 1
  {
    WidePayloads(p, vs);
    PayloadBytes(p, vs);
    var ls := EnginePayloads(p.pointer, vs);
    EnumStruct(vs, ls);
    if |ls| == 1 {
      OneWidePayload(vs);
      assert MaxAlignOf(ls[1..]) == 1;
    } else {
      UnionAlign(MaxSize(ls), MaxAlignOf(ls));
    }
    hide EnumLayout, UnionLayout, MaxSize, EnginePayloads, Payloads, AnyBytes;
  }

  lemma {:induction false} OneWidePayload(vs: seq<Variant>)
    requires WidePayload(vs) && |Payloads(vs)| == 1
    ensures Wide(Payloads(vs)[0])
  {
    if !WideVariant(vs[0]) {
      SomePayload(vs[1..]);
      OneWidePayload(vs[1..]);
    }
  }

  lemma {:induction false} SomePayload(vs: seq<Variant>)
    requires WidePayload(vs)
    ensures Payloads(vs) != []
  {
    if !WideVariant(vs[0]) {
      SomePayload(vs[1..]);
    }
  }

  lemma UnionAlign(size: nat, align: ScalarSize)
    ensures UnionLayout(size, align).align == if size == 0 then 1 else align
  {
    if size > 0 {
      UnionAgrees(size, align);
      OpaqueUnionOk(size, align);
    }
    hide UnionLayout, OpaqueUnion;
    NoUnion(align);
  }

  lemma NoUnion(align: ScalarSize)
    ensures UnionLayout(0, align) == Layout(1, 1)
  {
  }

  /** On a platform that aligns eight-byte scalars to four bytes, so is every machine type. */
  lemma {:induction false} LowAlign(p: Platform, s: Shape)
    requires p.low && Sized(s)
    ensures Align(Machine(p, s)) <= 4
    decreases s, 1
  {
    if s.SArray? {
      LowAlign(p, s.elem);
    } else if s.SStruct? {
      LowAligns(p, s.fields);
    } else if s.SEnum? {
      LowEnum(p, s.variants);
    }
  }

  lemma {:induction false} LowAligns(p: Platform, fs: seq<Shape>)
    requires p.low && SizedAll(fs)
    ensures AlignAll(Machines(p, fs)) <= 4
    decreases fs, 0
  {
    if fs != [] {
      LowAlign(p, fs[0]);
      LowAligns(p, fs[1..]);
      assert Machines(p, fs)[1..] == Machines(p, fs[1..]);
      hide Machine, Align;
    }
  }

  lemma {:induction false} LowPayloads(p: Platform, vs: seq<Variant>)
    requires p.low && SizedPayloads(vs)
    ensures MaxAlignOf(Measures(PayloadTys(p, vs))) <= 4
    ensures forall i :: 0 <= i < |PayloadTys(p, vs)| && PayloadTys(p, vs)[i].Some? ==>
              Align(PayloadTys(p, vs)[i].value) <= 4
    decreases vs, 0
  {
    if vs != [] {
      LowPayloads(p, vs[1..]);
      LowPayload(p, vs[0]);
      LowStep(p, vs);
    }
  }

  lemma {:induction false} LowPayload(p: Platform, v: Variant)
    requires p.low && SizedPayload(v)
    ensures v.Carries? ==> Measure(PayloadTy(p, v)).align <= 4
    decreases v, 0
  {
    if v.Carries? && !v.payload.SVoid? {
      LowAlign(p, v.payload);
    }
  }

  lemma LowStep(p: Platform, vs: seq<Variant>)
    requires p.low && SizedPayloads(vs) && vs != [] && MaxAlignOf(Measures(PayloadTys(p, vs[1..]))) <= 4
    requires vs[0].Carries? ==> Measure(PayloadTy(p, vs[0])).align <= 4
    ensures MaxAlignOf(Measures(PayloadTys(p, vs))) <= 4
  {
    if vs[0].Carries? {
      PayloadsStep(p, vs);
      MaxAlignStep(Measure(PayloadTy(p, vs[0])), Measures(PayloadTys(p, vs[1..])));
    }
    hide Size, Machine, Align;
  }

  lemma LowEnum(p: Platform, vs: seq<Variant>)
    requires p.low && SizedPayloads(vs)
    ensures Align(Machine(p, SEnum(vs))) <= 4
    decreases vs, 1
  {
    LowPayloads(p, vs);
    var ts := PayloadTys(p, vs);
    if ts != [] {
      var ls := Measures(ts);
      OpaqueUnionOk(MaxSize(ls), MaxAlignOf(ls));
      TaggedAlign(UnionTy(ts));
      hide OpaqueUnion, Align, MaxSize, MaxAlignOf, Measures, PayloadTys;
      UnionTyAlign(ts);
    }
  }

  lemma UnionTyAlign(ts: seq<Option<LTy>>)
    requires ts != []
    ensures Align(UnionTy(ts)) == if |ts| == 1 then if ts[0].None? then 1 else Align(ts[0].value)
                                  else if MaxSize(Measures(ts)) == 0 then 1 else MaxAlignOf(Measures(ts))
  {
    OpaqueUnionOk(MaxSize(Measures(ts)), MaxAlignOf(Measures(ts)));
    assert Align(I8) == 1;
    hide OpaqueUnion, Align, MaxSize, MaxAlignOf, Measures;
  }

  lemma TaggedAlign(u: LTy)
    ensures Align(St([I8, u])) == Align(u)
  {
    var fs := [I8, u];
    var rest := fs[1..];
    assert rest == [u] && rest[1..] == [];
    assert AlignAll(rest) == MaxAlign(Align(u), AlignAll(rest[1..])) == Align(u);
    assert Align(I8) == 1;
    assert AlignAll(fs) == MaxAlign(Align(I8), AlignAll(rest));
    StructSize(fs);
  }

  // ----- where they agree -----

  /** Size and alignment of the machine type are those that the engine reports. */
  predicate Agree(p: Platform, s: Shape)
    requires Sized(s)
  {
    EngineLayout(p.pointer, s) == Layout(Size(Machine(p, s)), Align(Machine(p, s)))
  }

  lemma {:induction false} Agrees(p: Platform, s: Shape)
    requires Sized(s) && !(p.low && Wide(s))
    ensures Agree(p, s)
    decreases s, 1
  {
    match s
    case SArray(e, n) => Agrees(p, e);
    case SStruct(fs) =>
      AllAgree(p, fs);
      StructAgrees(Machines(p, fs), EngineLayouts(p.pointer, fs));
    case SEnum(vs) =>
      if p.low && WidePayload(vs) {
        ByteLessAgrees(p, vs);
      } else {
        PayloadsAgree(p, vs);
        EnumAgrees(vs, PayloadTys(p, vs), EnginePayloads(p.pointer, vs));
      }
    case _ =>
  }

  lemma {:induction false} AllAgree(p: Platform, fs: seq<Shape>)
    requires SizedAll(fs) && !(p.low && AnyWide(fs))
    ensures forall i :: 0 <= i < |fs| ==>
              EngineLayouts(p.pointer, fs)[i] == Layout(Size(Machines(p, fs)[i]), Align(Machines(p, fs)[i]))
    decreases fs, 0
  {
    if fs != [] {
      Agrees(p, fs[0]);
      AllAgree(p, fs[1..]);
      hide Size, Align, Machine, EngineLayout, Wide;
    }
  }

  lemma {:induction false} PayloadsAgree(p: Platform, vs: seq<Variant>)
    requires SizedPayloads(vs) && !(p.low && WidePayload(vs))
    ensures EnginePayloads(p.pointer, vs) == Measures(PayloadTys(p, vs))
    ensures forall i :: 0 <= i < |Payloads(vs)| ==>
              (PayloadTys(p, vs)[i].None? <==> Payloads(vs)[i].SVoid?) && !Payloads(vs)[i].SNever?
    decreases vs, 0
  {
    if vs != [] {
      PayloadsAgree(p, vs[1..]);
      PayloadAgrees(p, vs[0]);
      hide *;
      PayloadsStep(p, vs);
      PayloadOf(p, vs[0]);
    } else {
      NoPayloads(p);
    }
  }

  lemma {:induction false} PayloadAgrees(p: Platform, v: Variant)
    requires SizedPayload(v) && !(p.low && WideVariant(v))
    ensures v.Carries? ==> EnginePayload(p.pointer, v) == Measure(PayloadTy(p, v))
    decreases v, 0
  {
    if v.Carries? && !v.payload.SVoid? {
      Agrees(p, v.payload);
    }
  }

  /** Several payloads without bytes leave a single byte for the union, in both. */
  lemma ByteLessAgrees(p: Platform, vs: seq<Variant>)
    requires SizedPayloads(vs) && WidePayload(vs) && |Payloads(vs)| != 1 && !AnyBytes(Payloads(vs))
    ensures Agree(p, SEnum(vs))
  {
    PayloadBytes(p, vs);
    SomePayload(vs);
    var ls, ts := EnginePayloads(p.pointer, vs), PayloadTys(p, vs);
    NoUnion(MaxAlignOf(ls));
    StructAgrees([I8, I8], [Layout(1, 1), Layout(1, 1)]);
    hide StructLayout, Size, Align, MaxSize, MaxAlignOf, EnginePayloads, PayloadTys, Payloads, UnionLayout;
  }

  /** The size and alignment that the engine reports for a shape are those of the machine type that the
      backend builds for it, and the assertion in the backend holds, on every platform that aligns eight-byte
      scalars to eight bytes.  On the others they are exactly for shapes whose layout no such scalar
      reaches. */
  lemma LayoutAgrees(p: Platform, s: Shape)
    requires Sized(s)
    ensures Agree(p, s) <==> !(p.low && Wide(s))
  {
    if p.low && Wide(s) {
      WideAlign(p, s);
      LowAlign(p, s);
    } else {
      Agrees(p, s);
    }
    hide EngineLayout, Size, Align, Machine;
  }

  /** A struct of a 32-bit and a 64-bit integer: 16 bytes for the engine, 12 on such a platform. */
  lemma LowStructDiffers()
    ensures var s, p := SStruct([SInt(4), SInt(8)]), DataLayout(4, true);
            EngineLayout(4, s) == Layout(16, 8) && Size(Machine(p, s)) == 12 && Align(Machine(p, s)) == 4
  {
    LowStructEngine();
    LowStructMachine();
  }

  lemma LowStructEngine()
    ensures EngineLayout(4, SStruct([SInt(4), SInt(8)])) == Layout(16, 8)
  {
    var fs := [SInt(4), SInt(8)];
    var gs := fs[1..];
    assert gs == [SInt(8)] && gs[1..] == [];
    var ls := [Layout(4, 4), Layout(8, 8)];
    var ms := ls[1..];
    assert ms == [Layout(8, 8)] && ms[1..] == [];
    assert EngineLayouts(4, gs[1..]) == [] && EngineLayouts(4, gs) == ms && EngineLayouts(4, fs) == ls;
    assert AlignUp(0, 4) == 0 && AlignUp(4, 8) == 8 && AlignUp(16, 8) == 16;
    hide AlignUp;
    assert FoldFields(ms, 4, 4) == FoldFields(ms[1..], 16, 8) == Layout(16, 8);
    assert FoldFields(ls, 0, 1) == FoldFields(ms, 4, 4);
  }

  lemma LowStructMachine()
    ensures var s, p := SStruct([SInt(4), SInt(8)]), DataLayout(4, true);
            Sized(s) && Size(Machine(p, s)) == 12 && Align(Machine(p, s)) == 4
  {
    var fs, p := [SInt(4), SInt(8)], DataLayout(4, true);
    var ts := [I32, Sc(KInt, 8, true)];
    LowStructSized();
    MachineOfInts(p, fs, ts);
    hide *;
    LowPair(ts);
  }

  lemma LowStructSized()
    ensures Sized(SStruct([SInt(4), SInt(8)]))
  {
    var fs := [SInt(4), SInt(8)];
    var gs := fs[1..];
    assert gs == [SInt(8)] && gs[1..] == [];
    assert SizedAll(gs[1..]) && Sized(gs[0]) && SizedAll(gs) && Sized(fs[0]) && SizedAll(fs);
  }

  lemma MachineOfInts(p: Platform, fs: seq<Shape>, ts: seq<LTy>)
    requires |fs| == |ts| == 2 && fs[0] == SInt(4) && fs[1] == SInt(8) && p == DataLayout(4, true)
    requires ts[0] == I32 && ts[1] == Sc(KInt, 8, true) && Sized(SStruct(fs))
    ensures Machine(p, SStruct(fs)) == St(ts)
  {
    var gs := fs[1..];
    assert SizedAll(fs) && Sized(gs[0]) && SizedAll(gs);
    assert gs[1..] == [] && Machines(p, gs[1..]) == [];
    assert Machine(p, gs[0]) == ts[1] && Machine(p, fs[0]) == ts[0];
    assert Machines(p, gs) == [ts[1]];
    assert Machines(p, fs) == ts;
  }

  lemma LowPair(ts: seq<LTy>)
    requires |ts| == 2 && ts[0] == I32 && ts[1] == Sc(KInt, 8, true)
    ensures Size(St(ts)) == 12 && Align(St(ts)) == 4
  {
    assert Align(ts[1]) == 4 && Align(ts[0]) == 4 && Size(ts[1]) == 8 && Size(ts[0]) == 4;
    assert AlignUp(12, 4) == 12;
    hide Size, Align, AlignUp;
    TwoFields(ts);
  }

  lemma EnumAgrees(vs: seq<Variant>, ts: seq<Option<LTy>>, ls: seq<Layout>)
    requires |ts| == |ls| == |Payloads(vs)| && ls == Measures(ts)
    requires forall i :: 0 <= i < |ts| ==> (ts[i].None? <==> Payloads(vs)[i].SVoid?) && !Payloads(vs)[i].SNever?
    ensures EnumLayout(vs, ls) == Layout(Size(EnumTy(ts)), Align(EnumTy(ts)))
  {
    if ts != [] {
      var u := UnionTy(ts);
      if |ts| == 1 {
        MeasuresAt(ts, 0);
      } else if MaxSize(ls) > 0 {
        UnionAgrees(MaxSize(ls), MaxAlignOf(ls));
      }
      StructAgrees([I8, u], [Layout(1, 1), Layout(Size(u), Align(u))]);
      hide Size, Align, OpaqueUnion, StructLayout, MaxSize, MaxAlignOf;
    }
  }
}
