/**
 Byte addresses of places: projections of fields, array elements and enum payloads over the layouts of
 nested structs, arrays and enums.
 */
module PlaceAddressing {
  import opened Wrappers
  import opened Arith
  import opened LlvmLayout
  import opened LayoutEngine
  import opened EnumUnion

  datatype Elem = Field(i: nat) | Index(local: nat) | Payload(variant: nat)

  /** The values of the index locals. */
  type Locals = map<nat, nat>

  function StepType(s: Shape, elem: Elem): Option<Shape> {
    match elem
    case Field(i) => if s.SStruct? && i < |s.fields| then Some(s.fields[i]) else None
    case Index(_) => if s.SArray? then Some(s.elem) else None
    case Payload(v) =>
      if s.SEnum? && v < |s.variants| && s.variants[v].Carries? && !s.variants[v].payload.SVoid?
      then Some(s.variants[v].payload) else None
  }

  /** The type of a place, without looking at its address. */
  function PlaceType(s: Shape, proj: seq<Elem>): Option<Shape> {
    if proj == [] then Some(s)
    else
      var next :- StepType(s, proj[0]);
      PlaceType(next, proj[1..])
  }

  /** Every index of the place is inside its array. */
  predicate InRange(s: Shape, proj: seq<Elem>, locals: Locals)
    requires PlaceType(s, proj).Some?
  {
    proj == [] ||
    (&& (proj[0].Index? ==> proj[0].local in locals && locals[proj[0].local] < s.len)
     && InRange(StepType(s, proj[0]).value, proj[1..], locals))
  }

  predicate StepInRange(s: Shape, elem: Elem, locals: Locals) {
    StepType(s, elem).Some? && (elem.Index? ==> elem.local in locals && locals[elem.local] < s.len)
  }

  function StepOffset(p: Platform, s: Shape, elem: Elem, locals: Locals): nat
    requires Sized(s) && StepInRange(s, elem, locals)
  {
    match elem
    case Field(i) => Offset(Machines(p, s.fields), i)
    case Index(l) => SizedStep(s, elem); locals[l] * Size(Machine(p, s.elem))
    case Payload(_) => PayloadPresent(p, s.variants, elem.variant); PayloadOffset(PayloadTys(p, s.variants))
  }

  function PlaceOffset(p: Platform, s: Shape, proj: seq<Elem>, locals: Locals): nat
    requires Sized(s) && PlaceType(s, proj).Some? && InRange(s, proj, locals)
  {
    if proj == [] then 0
    else
      SizedStep(s, proj[0]);
      StepOffset(p, s, proj[0], locals) + PlaceOffset(p, StepType(s, proj[0]).value, proj[1..], locals)
  }

  lemma {:induction false} SizedField(fs: seq<Shape>, i: nat)
    requires SizedAll(fs) && i < |fs|
    ensures Sized(fs[i])
  {
    if i > 0 {
      SizedField(fs[1..], i - 1);
    }
  }

  lemma {:induction false} SizedVariant(vs: seq<Variant>, v: nat)
    requires SizedPayloads(vs) && v < |vs|
    ensures SizedPayload(vs[v])
  {
    if v > 0 {
      SizedVariant(vs[1..], v - 1);
    }
  }

  lemma SizedStep(s: Shape, elem: Elem)
    requires Sized(s) && StepType(s, elem).Some?
    ensures Sized(StepType(s, elem).value)
  {
    match elem
    case Field(i) => SizedField(s.fields, i);
    case Index(_) =>
    case Payload(v) => SizedVariant(s.variants, v);
  }

  /** `place_ptr`: walk the projection, moving the address and the current type together. */
  method PlacePtr(p: Platform, base: nat, s: Shape, proj: seq<Elem>, locals: Locals) returns (ptr: nat, ty: Shape)
    requires Sized(s) && PlaceType(s, proj).Some? && InRange(s, proj, locals)
    ensures Some(ty) == PlaceType(s, proj)
    ensures ptr == base + PlaceOffset(p, s, proj, locals)
  {
    ptr, ty := base, s;
    var k := 0;
    while k < |proj|
      invariant k <= |proj| && Sized(ty) && PlaceType(ty, proj[k..]) == PlaceType(s, proj) && PlaceType(s, proj).Some?
      invariant InRange(ty, proj[k..], locals)
      invariant ptr + PlaceOffset(p, ty, proj[k..], locals) == base + PlaceOffset(p, s, proj, locals)
    {
      var elem := proj[k];
      assert proj[k..][0] == elem && proj[k..][1..] == proj[k + 1..];
      SizedStep(ty, elem);
      ptr := ptr + StepOffset(p, ty, elem, locals);
      ty := StepType(ty, elem).value;
      k := k + 1;
    }
  }

  // ----- places lie inside their root -----

  lemma {:induction false} MachinesAt(p: Platform, fs: seq<Shape>, i: nat)
    requires SizedAll(fs) && i < |fs|
    ensures Sized(fs[i]) && Machines(p, fs)[i] == Machine(p, fs[i])
  {
    if i > 0 {
      MachinesAt(p, fs[1..], i - 1);
    }
  }

  lemma {:induction false} PayloadPresent(p: Platform, vs: seq<Variant>, v: nat)
    requires SizedPayloads(vs) && v < |vs| && vs[v].Carries? && !vs[v].payload.SVoid?
    ensures Sized(vs[v].payload) && PayloadTys(p, vs) != [] && Some(Machine(p, vs[v].payload)) in PayloadTys(p, vs)
  {
    if v > 0 {
      PayloadPresent(p, vs[1..], v - 1);
    } else {
      assert PayloadTys(p, vs)[0] == Some(Machine(p, vs[0].payload));
    }
  }

  // ----- fields and elements in their order -----

  /** A first field or element. */
  predicate IsFirst(elem: Elem, locals: Locals) {
    elem == Field(0) || (elem.Index? && elem.local in locals && locals[elem.local] == 0)
  }

  /** The field or element right after another. */
  predicate IsNext(a: Elem, b: Elem, locals: Locals) {
    || (a.Field? && b == Field(a.i + 1))
    || (a.Index? && b.Index? && a.local in locals && b.local in locals && locals[b.local] == locals[a.local] + 1)
  }

  /** The first one is at the start. */
  lemma FirstStep(p: Platform, s: Shape, elem: Elem, locals: Locals)
    requires Sized(s) && StepInRange(s, elem, locals) && IsFirst(elem, locals)
    ensures StepOffset(p, s, elem, locals) == 0
  {
  }

  /** Each one follows at the first aligned offset at or after the end of the one before it. */
  lemma NextStep(p: Platform, s: Shape, a: Elem, b: Elem, locals: Locals)
    requires Sized(s) && StepInRange(s, a, locals) && StepInRange(s, b, locals) && IsNext(a, b, locals)
    requires Sized(StepType(s, a).value) && Sized(StepType(s, b).value)
    ensures var t := Machine(p, StepType(s, b).value);
            var end := StepOffset(p, s, a, locals) + Size(Machine(p, StepType(s, a).value));
            var off := StepOffset(p, s, b, locals);
            FirstAligned(off, end, Align(t))
  {
    hide Size, Align, Machine, Offset, FirstAligned;
    match b
    case Field(i) =>
      MachinesAt(p, s.fields, i - 1);
      MachinesAt(p, s.fields, i);
      NextField(Machines(p, s.fields), 0, i - 1);
      OffsetIs(Machines(p, s.fields), i - 1);
      OffsetIs(Machines(p, s.fields), i);
    case Index(l) =>
      ElementInArray(Machine(p, s.elem), s.len, locals[l]);
      OneMore(locals[a.local], Size(Machine(p, s.elem)));
      AtOnce(StepOffset(p, s, b, locals), Align(Machine(p, s.elem)));
  }

  lemma OffsetIs(fs: seq<LTy>, i: nat)
    requires i < |fs|
    ensures Offset(fs, i) == OffsetFrom(fs, 0, i)
  {
  }

  lemma OneMore(n: nat, size: nat)
    ensures (n + 1) * size == n * size + size
  {
  }

  /** One step stays inside, keeps to data bytes, and keeps alignment for everything that has bytes. */
  lemma StepInside(p: Platform, s: Shape, elem: Elem, locals: Locals)
    requires Sized(s) && StepInRange(s, elem, locals)
    ensures Sized(StepType(s, elem).value)
    ensures var t := Machine(p, StepType(s, elem).value); var off := StepOffset(p, s, elem, locals);
            Covers(Machine(p, s), off, t) && (Size(t) > 0 ==> off % Align(t) == 0)
  {
    SizedStep(s, elem);
    match elem
    case Field(i) =>
      MachinesAt(p, s.fields, i);
      CoversField(Machines(p, s.fields), i);
      FieldInStruct(Machines(p, s.fields), i);
    case Index(l) =>
      CoversElement(Machine(p, s.elem), s.len, locals[l]);
      ElementInArray(Machine(p, s.elem), s.len, locals[l]);
    case Payload(v) =>
      PayloadPresent(p, s.variants, v);
      var ts, t := PayloadTys(p, s.variants), Machine(p, s.variants[v].payload);
      var i :| 0 <= i < |ts| && ts[i] == Some(t);
      PayloadInside(ts, i);
  }

  /** A place lies inside its root, and its data on data bytes of the root. */
  lemma {:induction false} PlaceInside(p: Platform, s: Shape, proj: seq<Elem>, locals: Locals)
    requires Sized(s) && PlaceType(s, proj).Some? && InRange(s, proj, locals)
    ensures Sized(PlaceType(s, proj).value)
    ensures Covers(Machine(p, s), PlaceOffset(p, s, proj, locals), Machine(p, PlaceType(s, proj).value))
    decreases |proj|
  {
    hide Covers, Size, IsData, Align, Machine, StepOffset, StepType, Sized;
    if proj == [] {
      CoversSelf(Machine(p, s));
    } else {
      StepInside(p, s, proj[0], locals);
      var next := StepType(s, proj[0]).value;
      PlaceInside(p, next, proj[1..], locals);
      CoversTrans(Machine(p, s), StepOffset(p, s, proj[0], locals), Machine(p, next),
                  PlaceOffset(p, next, proj[1..], locals), Machine(p, PlaceType(s, proj).value));
    }
  }

  lemma CoversSelf(t: LTy)
    ensures Covers(t, 0, t)
  {
  }

  /** A part with bytes is inside a whole with bytes, whose alignment is a multiple of its own. */
  lemma StepAlign(p: Platform, s: Shape, elem: Elem, locals: Locals)
    requires Sized(s) && StepInRange(s, elem, locals) && Sized(StepType(s, elem).value)
    requires Size(Machine(p, StepType(s, elem).value)) > 0
    ensures Align(Machine(p, s)) % Align(Machine(p, StepType(s, elem).value)) == 0
  {
    match elem
    case Field(i) =>
      MachinesAt(p, s.fields, i);
      AlignOfField(Machines(p, s.fields), i);
    case Index(l) =>
      SameAlign(p, s);
    case Payload(v) =>
      PayloadPresent(p, s.variants, v);
      PayloadStepAlign(PayloadTys(p, s.variants), Machine(p, s.variants[v].payload));
  }

  lemma SameAlign(p: Platform, s: Shape)
    requires s.SArray? && Sized(s) && Sized(s.elem)
    ensures Align(Machine(p, s)) % Align(Machine(p, s.elem)) == 0
  {
  }

  lemma PayloadStepAlign(ts: seq<Option<LTy>>, t: LTy)
    requires Some(t) in ts && Size(t) > 0
    ensures Align(EnumTy(ts)) % Align(t) == 0
  {
    var i :| 0 <= i < |ts| && ts[i] == Some(t);
    var fs := [I8, UnionTy(ts)];
    assert fs[1] == UnionTy(ts);
    UnionHolds(ts, i);
    SomeBytes(ts, i);
    hide UnionTy, Size, Align;
    AlignOfField(fs, 1);
    AlignsThrough(Align(St(fs)), Align(UnionTy(ts)), Align(t));
  }

  /** The address of a place with bytes is aligned for its type whenever its root is aligned. */
  lemma {:induction false} PlaceAligned(p: Platform, base: nat, s: Shape, proj: seq<Elem>, locals: Locals)
    requires Sized(s) && PlaceType(s, proj).Some? && InRange(s, proj, locals) && base % Align(Machine(p, s)) == 0
    requires Sized(PlaceType(s, proj).value) && Size(Machine(p, PlaceType(s, proj).value)) > 0
    ensures (base + PlaceOffset(p, s, proj, locals)) % Align(Machine(p, PlaceType(s, proj).value)) == 0
    decreases |proj|
  {
    hide *;
    if proj == [] {
      NoStep(p, s, locals);
    } else {
      StepBase(p, base, s, proj, locals);
      PlaceAligned(p, base + StepOffset(p, s, proj[0], locals), StepType(s, proj[0]).value, proj[1..], locals);
    }
  }

  lemma NoStep(p: Platform, s: Shape, locals: Locals)
    requires Sized(s)
    ensures PlaceType(s, []) == Some(s) && InRange(s, [], locals) && PlaceOffset(p, s, [], locals) == 0
  {
  }

  /** One step down keeps the alignment that the rest of the way needs. */
  lemma StepBase(p: Platform, base: nat, s: Shape, proj: seq<Elem>, locals: Locals)
    requires proj != [] && Sized(s) && PlaceType(s, proj).Some? && InRange(s, proj, locals)
    requires base % Align(Machine(p, s)) == 0
    requires Sized(PlaceType(s, proj).value) && Size(Machine(p, PlaceType(s, proj).value)) > 0
    ensures StepType(s, proj[0]).Some?
    ensures var next := StepType(s, proj[0]).value;
            && Sized(next) && PlaceType(next, proj[1..]) == PlaceType(s, proj) && InRange(next, proj[1..], locals)
            && StepInRange(s, proj[0], locals)
            && (base + StepOffset(p, s, proj[0], locals)) % Align(Machine(p, next)) == 0
            && PlaceOffset(p, s, proj, locals) ==
               StepOffset(p, s, proj[0], locals) + PlaceOffset(p, next, proj[1..], locals)
  {
    hide Covers, Size, IsData, Align, Machine, StepOffset, StepType, Sized, PlaceType, PlaceOffset, InRange,
         StepInRange;
    PlaceStep(p, s, proj, locals);
    var next := StepType(s, proj[0]).value;
    PlaceInside(p, next, proj[1..], locals);
    SomeSize(Machine(p, next), PlaceOffset(p, next, proj[1..], locals), Machine(p, PlaceType(s, proj).value));
    StepInside(p, s, proj[0], locals);
    StepAlign(p, s, proj[0], locals);
    AlignsThrough(base, Align(Machine(p, s)), Align(Machine(p, next)));
    SumAligned(base, StepOffset(p, s, proj[0], locals), Align(Machine(p, next)));
  }

  lemma SomeSize(t: LTy, off: nat, u: LTy)
    requires Covers(t, off, u) && Size(u) > 0
    ensures Size(t) > 0
  {
  }

  lemma SumAligned(x: nat, y: nat, a: ScalarSize)
    requires x % a == 0 && y % a == 0
    ensures (x + y) % a == 0
  {
    ModAdd(x, y, a);
  }

  // ----- places that part ways do not overlap -----

  predicate SameStep(a: Elem, b: Elem, locals: Locals) {
    a == b || (a.Index? && b.Index? && a.local in locals && b.local in locals && locals[a.local] == locals[b.local])
  }

  /** After some common steps, one place takes one field or element and the other takes another. */
  predicate Diverge(a: seq<Elem>, b: seq<Elem>, locals: Locals) {
    a != [] && b != [] &&
    if SameStep(a[0], b[0], locals) then Diverge(a[1..], b[1..], locals)
    else (a[0].Field? && b[0].Field?) || (a[0].Index? && b[0].Index?)
  }

  /** Such are any two ways on from one place through different fields, or through elements whose index locals hold
      different values. */
  lemma {:induction false} WaysDiverge(common: seq<Elem>, a: Elem, b: Elem, x: seq<Elem>, y: seq<Elem>, locals: Locals)
    requires (a.Field? && b.Field? && a.i != b.i)
             || (a.Index? && b.Index? && a.local in locals && b.local in locals && locals[a.local] != locals[b.local])
    ensures Diverge(common + [a] + x, common + [b] + y, locals)
  {
    var p, q := common + [a] + x, common + [b] + y;
    if common == [] {
      assert p[0] == a && q[0] == b;
    } else {
      WaysDiverge(common[1..], a, b, x, y, locals);
      assert p[0] == q[0] == common[0];
      assert p[1..] == common[1..] + [a] + x && q[1..] == common[1..] + [b] + y;
    }
  }

  lemma {:induction false} PlacesApart(p: Platform, s: Shape, a: seq<Elem>, b: seq<Elem>, locals: Locals)
    requires Sized(s) && PlaceType(s, a).Some? && InRange(s, a, locals) && PlaceType(s, b).Some?
    requires InRange(s, b, locals)
    requires Diverge(a, b, locals) && Sized(PlaceType(s, a).value) && Sized(PlaceType(s, b).value)
    ensures var i, j := PlaceOffset(p, s, a, locals), PlaceOffset(p, s, b, locals);
            || i + Size(Machine(p, PlaceType(s, a).value)) <= j
            || j + Size(Machine(p, PlaceType(s, b).value)) <= i
    decreases |a|
  {
    DivergeStep(a, b, locals);
    hide *;
    PlaceStep(p, s, a, locals);
    PlaceStep(p, s, b, locals);
    var x, y := StepType(s, a[0]).value, StepType(s, b[0]).value;
    if SameStep(a[0], b[0], locals) {
      SameStepSame(p, s, a[0], b[0], locals);
      PlacesApart(p, x, a[1..], b[1..], locals);
    } else {
      RestInside(p, x, a[1..], locals);
      RestInside(p, y, b[1..], locals);
      StepsApart(p, s, a[0], b[0], locals);
    }
  }

  lemma DivergeStep(a: seq<Elem>, b: seq<Elem>, locals: Locals)
    requires Diverge(a, b, locals)
    ensures a != [] && b != []
    ensures SameStep(a[0], b[0], locals) ==> Diverge(a[1..], b[1..], locals)
    ensures !SameStep(a[0], b[0], locals) ==> (a[0].Field? && b[0].Field?) || (a[0].Index? && b[0].Index?)
  {
  }

  /** The first step of a place and the rest of it. */
  lemma PlaceStep(p: Platform, s: Shape, proj: seq<Elem>, locals: Locals)
    requires proj != [] && Sized(s) && PlaceType(s, proj).Some? && InRange(s, proj, locals)
    ensures StepType(s, proj[0]).Some? && StepInRange(s, proj[0], locals)
    ensures var next := StepType(s, proj[0]).value;
            && Sized(next) && PlaceType(next, proj[1..]) == PlaceType(s, proj) && InRange(next, proj[1..], locals)
            && PlaceOffset(p, s, proj, locals) ==
               StepOffset(p, s, proj[0], locals) + PlaceOffset(p, next, proj[1..], locals)
  {
    SizedStep(s, proj[0]);
    hide Size, Align, Machine, StepOffset, StepType, Sized, StepInRange;
  }

  lemma RestInside(p: Platform, s: Shape, proj: seq<Elem>, locals: Locals)
    requires Sized(s) && PlaceType(s, proj).Some? && InRange(s, proj, locals) && Sized(PlaceType(s, proj).value)
    ensures PlaceOffset(p, s, proj, locals) + Size(Machine(p, PlaceType(s, proj).value)) <= Size(Machine(p, s))
  {
    PlaceInside(p, s, proj, locals);
    hide Size, IsData, Machine, PlaceOffset, PlaceType, InRange, Sized;
  }

  lemma SameStepSame(p: Platform, s: Shape, a: Elem, b: Elem, locals: Locals)
    requires Sized(s) && StepInRange(s, a, locals) && StepInRange(s, b, locals) && SameStep(a, b, locals)
    ensures StepType(s, a) == StepType(s, b) && StepOffset(p, s, a, locals) == StepOffset(p, s, b, locals)
  {
  }

  lemma StepsApart(p: Platform, s: Shape, a: Elem, b: Elem, locals: Locals)
    requires Sized(s) && StepInRange(s, a, locals) && StepInRange(s, b, locals) && !SameStep(a, b, locals)
    requires (a.Field? && b.Field?) || (a.Index? && b.Index?)
    requires Sized(StepType(s, a).value) && Sized(StepType(s, b).value)
    ensures var i, j := StepOffset(p, s, a, locals), StepOffset(p, s, b, locals);
            || i + Size(Machine(p, StepType(s, a).value)) <= j
            || j + Size(Machine(p, StepType(s, b).value)) <= i
  {
    if a.Field? {
      var ts := Machines(p, s.fields);
      MachinesAt(p, s.fields, a.i);
      MachinesAt(p, s.fields, b.i);
      if a.i < b.i {
        FieldsApart(ts, 0, a.i, b.i);
      } else {
        FieldsApart(ts, 0, b.i, a.i);
      }
    } else {
      var i, j, n := locals[a.local], locals[b.local], Size(Machine(p, s.elem));
      if i < j {
        ElementEnd(n, i, j);
      } else {
        ElementEnd(n, j, i);
      }
    }
  }

  /** A store through one place leaves every load through a diverging place as it was. */
  lemma StoreLeavesOther(p: Platform, mem: Bytes, base: nat, s: Shape, a: seq<Elem>, b: seq<Elem>, locals: Locals,
      v: Bytes)
    requires Sized(s) && PlaceType(s, a).Some? && InRange(s, a, locals) && PlaceType(s, b).Some?
    requires InRange(s, b, locals)
    requires Diverge(a, b, locals) && base + Size(Machine(p, s)) <= |mem|
    requires Sized(PlaceType(s, a).value) && Sized(PlaceType(s, b).value)
    requires |v| == Size(Machine(p, PlaceType(s, a).value))
    ensures var ta, tb := Machine(p, PlaceType(s, a).value), Machine(p, PlaceType(s, b).value);
            var i, j := base + PlaceOffset(p, s, a, locals), base + PlaceOffset(p, s, b, locals);
            && i + Size(ta) <= |mem| && j + Size(tb) <= |mem|
            && LoadTy(StoreTy(mem, i, ta, v), j, tb) == LoadTy(mem, j, tb)
  {
    hide *;
    RestInside(p, s, a, locals);
    RestInside(p, s, b, locals);
    PlacesApart(p, s, a, b, locals);
    var ta, tb := Machine(p, PlaceType(s, a).value), Machine(p, PlaceType(s, b).value);
    LoadElsewhere(mem, base + PlaceOffset(p, s, a, locals), ta, v, base + PlaceOffset(p, s, b, locals), tb);
  }

  /** A store through a place is read back through it. */
  lemma StoreThenLoad(p: Platform, mem: Bytes, base: nat, s: Shape, a: seq<Elem>, locals: Locals, v: Bytes)
    requires Sized(s) && PlaceType(s, a).Some? && InRange(s, a, locals) && base + Size(Machine(p, s)) <= |mem|
    requires Sized(PlaceType(s, a).value) && ValueOf(Machine(p, PlaceType(s, a).value), v)
    ensures var t := Machine(p, PlaceType(s, a).value); var i := base + PlaceOffset(p, s, a, locals);
            i + Size(t) <= |mem| && LoadTy(StoreTy(mem, i, t, v), i, t) == v
  {
    hide *;
    RestInside(p, s, a, locals);
    LoadAfterStore(mem, base + PlaceOffset(p, s, a, locals), Machine(p, PlaceType(s, a).value), v);
  }
}
