/**
 What the typing rules of the intermediate representation admit, said by the parts of types.
 */
module TypeLaws {
  import opened Wrappers
  import opened Mir

  // ----- parts of types -----

  /** `u` is `t` or one of the types that it is built from; where only solid parts count, arrays without elements
      have none. */
  predicate PartOf(u: Ty, t: Ty, solid: bool)
    decreases t
  {
    u == t ||
    match t
    case Array(e, n) => (solid ==> n > 0) && PartOf(u, e, solid)
    case Struct(fs) => exists i :: 0 <= i < |fs| && PartOf(u, fs[i], solid)
    case Slice(e) => PartOf(u, e, solid)
    case _ => false
  }

  /** Comparing walks a slice exactly when some solid part is one. */
  lemma {:induction false} OpensLoopIff(t: Ty)
    ensures OpensLoop(t) <==> exists u :: PartOf(u, t, true) && u.Slice?
    decreases t, 1
  {
    match t
    case Array(e, n) =>
      OpensLoopIff(e);
      if n > 0 && OpensLoop(e) {
        var u :| PartOf(u, e, true) && u.Slice?;
        assert PartOf(u, t, true);
      }
    case Struct(fs) =>
      OpensLoopAnyIff(fs);
      if OpensLoopAny(fs) {
        var i :| 0 <= i < |fs| && OpensLoop(fs[i]);
        OpensLoopIff(fs[i]);
        var u :| PartOf(u, fs[i], true) && u.Slice?;
        assert PartOf(u, t, true);
      }
      if u :| PartOf(u, t, true) && u.Slice? {
        var i :| 0 <= i < |fs| && PartOf(u, fs[i], true);
        OpensLoopIff(fs[i]);
      }
    case Slice(e) => assert PartOf(t, t, true);
    case _ =>
  }

  lemma {:induction false} OpensLoopAnyIff(tys: seq<Ty>)
    ensures OpensLoopAny(tys) <==> exists i :: 0 <= i < |tys| && OpensLoop(tys[i])
  {
    if tys != [] {
      OpensLoopAnyIff(tys[1..]);
      assert forall i :: 0 < i < |tys| ==> tys[i] == tys[1..][i - 1];
    }
  }

  lemma {:induction false} ComparableAllIff(tys: seq<Ty>)
    ensures ComparableAll(tys) <==> forall i :: 0 <= i < |tys| ==> Comparable(tys[i])
  {
    if tys != [] {
      ComparableAllIff(tys[1..]);
      assert forall i :: 0 < i < |tys| ==> tys[i] == tys[1..][i - 1];
    }
  }

  /** A part that stands in the way of comparing: nothing, or a slice whose elements hold a slice. */
  ghost predicate Obstacle(u: Ty) {
    u.Void? || (u.Slice? && exists v :: PartOf(v, u.item, true) && v.Slice?)
  }

  /** Values are compared at every type but those with such a part. */
  lemma {:induction false} ComparableIff(t: Ty)
    ensures Comparable(t) <==> forall u :: PartOf(u, t, false) ==> !Obstacle(u)
    decreases t
  {
    hide OpensLoop, Obstacle;
    ObstacleHere(t);
    match t
    case Array(e, _) => ComparableIff(e);
    case Struct(fs) =>
      ComparableAllIff(fs);
      forall i | 0 <= i < |fs| ensures Comparable(fs[i]) <==> forall u :: PartOf(u, fs[i], false) ==> !Obstacle(u) {
        ComparableIff(fs[i]);
      }
      FieldParts(fs);
    case Slice(e) => ComparableIff(e);
    case _ =>
  }

  lemma ObstacleHere(t: Ty)
    ensures Obstacle(t) <==> t.Void? || (t.Slice? && OpensLoop(t.item))
  {
    if t.Slice? {
      OpensLoopIff(t.item);
    }
  }

  lemma FieldParts(fs: seq<Ty>)
    ensures forall u, i :: 0 <= i < |fs| && PartOf(u, fs[i], false) ==> PartOf(u, Struct(fs), false)
    ensures forall u :: PartOf(u, Struct(fs), false) ==>
              u == Struct(fs) || exists i :: 0 <= i < |fs| && PartOf(u, fs[i], false)
  {
  }

  // ----- binary operators -----

  /** A binary operator applies to every pair of operands of one type that it is defined for, whichever of them is
      a constant; a comparison gives a truth value, every other operator a value of that type. */
  lemma BinaryTyped(env: Env, op: BinOp, l: Operand, r: Operand, t: Ty)
    requires OperandOk(env, l, t) && OperandOk(env, r, t) && (l.Copy? || r.Copy?) && BinOpOk(op, t)
    ensures RvalueOk(env, Binary(op, l, r), if op.IsComparison() then Bool else t)
  {
  }
}
