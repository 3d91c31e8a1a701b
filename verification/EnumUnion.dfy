/**
 Building an enum value, moving it through memory as one machine value, and reading its tag and payload
 back.
 */
module EnumUnion {
  import opened Wrappers
  import opened LlvmLayout
  import opened LayoutEngine

  /** The tag of a variant is its first position among the variants, or 0 for one that is not there. */
  function VariantTag(variants: seq<nat>, id: nat): (tag: nat)
    ensures id in variants ==> tag < |variants| && variants[tag] == id && id !in variants[..tag]
    ensures id !in variants ==> tag == 0
  {
    if id in variants then IndexOf(variants, id) else 0
  }

  function IndexOf(ids: seq<nat>, id: nat): (i: nat)
    requires id in ids
    ensures i < |ids| && ids[i] == id && forall j :: 0 <= j < i ==> ids[j] != id
  {
    if ids[0] == id then 0 else 1 + IndexOf(ids[1..], id)
  }

  /** The machine type of an enum in which some variant has a payload. */
  function EnumStruct(payloads: seq<Option<LTy>>): (t: LTy)
    requires payloads != []
    ensures t == St([I8, UnionTy(payloads)])
  {
    EnumTy(payloads)
  }

  function PayloadOffset(payloads: seq<Option<LTy>>): (off: nat)
    requires payloads != []
  {
    Offset([I8, UnionTy(payloads)], 1)
  }

  /** Every payload lies inside the enum, after the tag, and all its data survives where the enum is
      copied as a whole. */
  lemma PayloadInside(payloads: seq<Option<LTy>>, i: nat)
    requires i < |payloads| && payloads[i].Some?
    ensures var t := payloads[i].value; var off := PayloadOffset(payloads);
            && off >= 1
            && Covers(EnumStruct(payloads), off, t)
            && (Size(t) > 0 ==> off % Align(t) == 0)
  {
    hide *;
    var u, t, off := UnionTy(payloads), payloads[i].value, PayloadOffset(payloads);
    UnionHolds(payloads, i);
    UnionField(payloads);
    CoversTrans(EnumStruct(payloads), off, u, 0, t);
    if Size(t) > 0 {
      SomeBytes(payloads, i);
      AlignsThrough(off, Align(u), Align(t));
    }
  }

  /** The union is the second field, after the one byte of the tag. */
  lemma UnionField(payloads: seq<Option<LTy>>)
    requires payloads != []
    ensures var u, off := UnionTy(payloads), PayloadOffset(payloads);
            off >= 1 && Covers(EnumStruct(payloads), off, u) && off % Align(u) == 0
  {
    var fs := [I8, UnionTy(payloads)];
    assert fs[1] == UnionTy(payloads);
    TagByte(fs);
    hide UnionTy, Size, IsData, Align, Offset, Covers;
    FieldInStruct(fs, 1);
    FieldsApart(fs, 0, 0, 1);
    CoversField(fs, 1);
  }

  lemma TagByte(fs: seq<LTy>)
    requires |fs| == 2 && fs[0] == I8
    ensures Size(fs[0]) == 1 && Offset(fs, 0) == 0
  {
  }

  lemma SomeBytes(payloads: seq<Option<LTy>>, i: nat)
    requires i < |payloads| && payloads[i].Some? && Size(payloads[i].value) > 0
    ensures MaxSize(Measures(payloads)) > 0
  {
    hide Size, Align;
    MeasuresAt(payloads, i);
    MaxBounds(Measures(payloads), i);
  }

  lemma TagInside(payloads: seq<Option<LTy>>)
    requires payloads != []
    ensures Covers(EnumStruct(payloads), 0, I8)
  {
    var fs := [I8, UnionTy(payloads)];
    CoversField(fs, 0);
    assert Offset(fs, 0) == 0;
  }

  function Undefined(n: nat): (b: Bytes)
    ensures |b| == n
  {
    seq(n, _ => Undef)
  }

  /** The value of a variant: what reading the slot back gives after tag and payload were stored. */
  function EnumValue(payloads: seq<Option<LTy>>, tag: nat, t: Option<LTy>, v: Bytes): (r: Bytes)
    requires payloads != [] && (t.Some? ==> t in payloads && |v| == Size(t.value))
    ensures |r| == Size(EnumStruct(payloads))
  {
    var e := EnumStruct(payloads);
    var slot := StoreTag(payloads, tag);
    if t.None? then LoadTy(slot, 0, e)
    else
      var i :| 0 <= i < |payloads| && payloads[i] == t;
      PayloadInside(payloads, i);
      LoadTy(StoreTy(slot, PayloadOffset(payloads), t.value, v), 0, e)
  }

  function StoreTag(payloads: seq<Option<LTy>>, tag: nat): (slot: Bytes)
    requires payloads != []
    ensures |slot| == Size(EnumStruct(payloads))
  {
    var e := EnumStruct(payloads);
    TagInside(payloads);
    StoreTy(Undefined(Size(e)), 0, I8, [B(tag % 256)])
  }

  /** `load_enum_tag` on an enum with payloads. */
  function LoadTag(mem: Bytes, at: nat, payloads: seq<Option<LTy>>): Byte
    requires payloads != [] && at + Size(EnumStruct(payloads)) <= |mem|
  {
    TagInside(payloads);
    LoadTy(mem, at, I8)[0]
  }

  function LoadPayload(mem: Bytes, at: nat, payloads: seq<Option<LTy>>, t: LTy): Bytes
    requires payloads != [] && Some(t) in payloads && at + Size(EnumStruct(payloads)) <= |mem|
  {
    var i :| 0 <= i < |payloads| && payloads[i] == Some(t);
    PayloadInside(payloads, i);
    LoadTy(mem, at + PayloadOffset(payloads), t)
  }

  /** An enum value that was built for a variant and stored anywhere reads back that variant's tag byte and
      exactly its payload. */
  lemma EnumRoundTrip(payloads: seq<Option<LTy>>, tag: nat, t: LTy, v: Bytes, mem: Bytes, at: nat)
    requires payloads != [] && Some(t) in payloads && ValueOf(t, v)
    requires at + Size(EnumStruct(payloads)) <= |mem|
    ensures var m := StoreTy(mem, at, EnumStruct(payloads), EnumValue(payloads, tag, Some(t), v));
            LoadTag(m, at, payloads) == B(tag % 256) && LoadPayload(m, at, payloads, t) == v
  {
    hide *;
    var e, off := EnumStruct(payloads), PayloadOffset(payloads);
    var slot := EnumSlot(payloads, tag, t, v, mem, at);
    DetourKeeps(slot, 0, e, off, t, mem, at);
    DetourKeeps(slot, 0, e, 0, I8, mem, at);
  }

  /** The slot an enum is built in, and what it holds. */
  lemma EnumSlot(payloads: seq<Option<LTy>>, tag: nat, t: LTy, v: Bytes, mem: Bytes, at: nat) returns (slot: Bytes)
    requires payloads != [] && Some(t) in payloads && ValueOf(t, v) && at + Size(EnumStruct(payloads)) <= |mem|
    ensures var e, off := EnumStruct(payloads), PayloadOffset(payloads);
            && |slot| == Size(e) && |v| == Size(t) && Covers(e, off, t) && Covers(e, 0, I8)
            && off + Size(t) <= |slot| && Size(I8) <= |slot|
            && EnumValue(payloads, tag, Some(t), v) == LoadTy(slot, 0, e)
            && LoadTy(slot, off, t) == v && LoadTy(slot, 0, I8) == [B(tag % 256)]
            && forall m: Bytes :: |m| == |mem| ==>
                 at + off + Size(t) <= |m| && LoadPayload(m, at, payloads, t) == LoadTy(m, at + off, t)
                 && LoadTag(m, at, payloads) == LoadTy(m, at, I8)[0]
  {
    var e, off := EnumStruct(payloads), PayloadOffset(payloads);
    var i :| 0 <= i < |payloads| && payloads[i] == Some(t);
    PayloadInside(payloads, i);
    TagInside(payloads);
    hide EnumStruct, PayloadOffset, StoreTag, Size, IsData;
    var tagged := StoreTag(payloads, tag);
    slot := StoreTy(tagged, off, t, v);
    LoadAfterStore(tagged, off, t, v);
    LoadElsewhereTag(tagged, off, t, v);
    TagStored(payloads, tag);
  }

  lemma LoadElsewhereTag(slot: Bytes, off: nat, t: LTy, v: Bytes)
    requires off >= 1 && off + Size(t) <= |slot| && |v| == Size(t)
    ensures LoadTy(StoreTy(slot, off, t, v), 0, I8) == LoadTy(slot, 0, I8)
  {
    LoadElsewhere(slot, off, t, v, 0, I8);
  }

  lemma TagStored(payloads: seq<Option<LTy>>, tag: nat)
    requires payloads != []
    ensures |StoreTag(payloads, tag)| >= 1 && LoadTy(StoreTag(payloads, tag), 0, I8) == [B(tag % 256)]
  {
    TagInside(payloads);
    LoadAfterStore(Undefined(Size(EnumStruct(payloads))), 0, I8, [B(tag % 256)]);
  }

  /** A variant without payload, or with a void one, keeps its tag. */
  lemma BareRoundTrip(payloads: seq<Option<LTy>>, tag: nat, mem: Bytes, at: nat)
    requires payloads != [] && at + Size(EnumStruct(payloads)) <= |mem|
    ensures var m := StoreTy(mem, at, EnumStruct(payloads), EnumValue(payloads, tag, None, []));
            LoadTag(m, at, payloads) == B(tag % 256)
  {
    TagInside(payloads);
    TagStored(payloads, tag);
    var e, slot := EnumStruct(payloads), StoreTag(payloads, tag);
    hide EnumStruct, StoreTag, Size, IsData;
    DetourKeeps(slot, 0, e, 0, I8, mem, at);
  }

  /** What lies at `at` is variant `id`: the tag byte is the low byte of its position, and a payload that
      was given is there. */
  ghost predicate Holds(mem: Bytes, at: nat, payloads: seq<Option<LTy>>, variants: seq<nat>, id: nat, t: Option<LTy>,
      v: Bytes)
    requires payloads != [] && at + Size(EnumStruct(payloads)) <= |mem| && (t.Some? ==> t in payloads)
  {
    && (exists p: nat ::
          p < |variants| && variants[p] == id && LoadTag(mem, at, payloads) == B(p % 256))
    && (t.Some? ==> LoadPayload(mem, at, payloads, t.value) == v)
  }

  lemma Constructed(payloads: seq<Option<LTy>>, variants: seq<nat>, id: nat, t: Option<LTy>, v: Bytes)
    requires payloads != [] && (t.Some? ==> t in payloads && ValueOf(t.value, v)) && id in variants
    ensures forall mem: Bytes, at: nat :: at + Size(EnumStruct(payloads)) <= |mem| ==>
              Holds(StoreTy(mem, at, EnumStruct(payloads), EnumValue(payloads, VariantTag(variants, id), t, v)),
                    at, payloads, variants, id, t, v)
  {
    var tag := VariantTag(variants, id);
    forall mem: Bytes, at: nat | at + Size(EnumStruct(payloads)) <= |mem|
      ensures Holds(StoreTy(mem, at, EnumStruct(payloads), EnumValue(payloads, tag, t, v)),
                    at, payloads, variants, id, t, v)
    {
      hide EnumValue, LoadTag, LoadPayload, EnumStruct, Size, IsData;
      if t.Some? {
        EnumRoundTrip(payloads, tag, t.value, v, mem, at);
      } else {
        NoPayload(payloads, tag, v);
        BareRoundTrip(payloads, tag, mem, at);
      }
    }
  }

  lemma NoPayload(payloads: seq<Option<LTy>>, tag: nat, v: Bytes)
    requires payloads != []
    ensures EnumValue(payloads, tag, None, v) == EnumValue(payloads, tag, None, [])
  {
  }

  /** `aggregate_value` for an enum: a fresh slot, the tag as one byte, the payload unless it is void. */
  method AggregateValue(payloads: seq<Option<LTy>>, variants: seq<nat>, id: nat, t: Option<LTy>, v: Bytes)
      returns (r: Bytes)
    requires payloads != [] && (t.Some? ==> t in payloads && |v| == Size(t.value))
    ensures |r| == Size(EnumStruct(payloads)) && r == EnumValue(payloads, VariantTag(variants, id), t, v)
    ensures id in variants && (t.Some? ==> ValueOf(t.value, v)) ==>
              forall mem: Bytes, at: nat :: at + |r| <= |mem| ==>
                Holds(StoreTy(mem, at, EnumStruct(payloads), r), at, payloads, variants, id, t, v)
  {
    var e := EnumStruct(payloads);
    var tag := VariantTag(variants, id);
    TagInside(payloads);
    var slot := Undefined(Size(e));
    slot := StoreTy(slot, 0, I8, [B(tag % 256)]);
    if t.Some? {
      ghost var i :| 0 <= i < |payloads| && payloads[i] == t;
      PayloadInside(payloads, i);
      slot := StoreTy(slot, PayloadOffset(payloads), t.value, v);
    }
    r := LoadTy(slot, 0, e);
    if id in variants && (t.Some? ==> ValueOf(t.value, v)) {
      Constructed(payloads, variants, id, t, v);
    }
  }

  ghost predicate Distinct(ids: seq<nat>) {
    forall i, j :: 0 <= i < j < |ids| ==> ids[i] != ids[j]
  }

  lemma TagsTellVariantsApart(variants: seq<nat>)
    requires Distinct(variants)
    ensures |variants| <= 256 <==>
            (forall a, b :: a in variants && b in variants && a != b ==>
               VariantTag(variants, a) % 256 != VariantTag(variants, b) % 256)
  {
    if |variants| > 256 {
      var a, b := variants[0], variants[256];
      assert VariantTag(variants, a) == 0 && VariantTag(variants, b) == 256;
      assert a in variants && b in variants && a != b;
    }
  }
}
