/**
 What fields and indices mean: a member of an aggregate is found at the field or the index it was built
 at, and a store through one member leaves the others as they are.
 */
module PlaceLaws {
  import opened Wrappers
  import opened Arith
  import opened Mir

  /** The place that one more step leads to. */
  function Extend(p: Place, elem: Elem): Place {
    Place(p.root, p.proj + [elem])
  }

  /** Step `elem` leads from a value of type `ty` to its member `i`: a field by its number, an element by the
      value of the index local. */
  predicate Selects(env: Env, mem: Mem, ty: Ty, elem: Elem, i: nat)
    requires MemOk(env, mem)
  {
    && i < |Kids(ty)|
    && match elem
       case Field(k) => (ty.Struct? || ty.Slice?) && k == i
       case Index(l) =>
         ty.Array? && l < env.locals && l < |env.roots| && env.roots[l] == USIZE && IndexValue(env, mem, l) == Some(i)
       case Deref => false
  }

  // ----- steps -----

  lemma {:induction false} TyAppend(env: Env, ty: Ty, proj: seq<Elem>, elem: Elem)
    requires TyFrom(env, ty, proj).Some?
    ensures TyFrom(env, ty, proj + [elem]) == StepTy(env, TyFrom(env, ty, proj).value, elem)
    decreases |proj|
  {
    if proj == [] {
      assert (proj + [elem])[1..] == [];
    } else {
      assert (proj + [elem])[1..] == proj[1..] + [elem];
      TyAppend(env, StepTy(env, ty, proj[0]).value, proj[1..], elem);
    }
  }

  lemma {:induction false} AddrAppend(env: Env, mem: Mem, a: Addr, ty: Ty, proj: seq<Elem>, elem: Elem)
    requires MemOk(env, mem) && TyFrom(env, ty, proj).Some?
    requires StepTy(env, TyFrom(env, ty, proj).value, elem).Some?
    ensures TyFrom(env, ty, proj + [elem]).Some?
    ensures var b := AddrFrom(env, mem, a, ty, proj);
            AddrFrom(env, mem, a, ty, proj + [elem]) ==
            if b.Some? then StepAddr(env, mem, b.value, TyFrom(env, ty, proj).value, elem) else None
    decreases |proj|
  {
    TyAppend(env, ty, proj, elem);
    hide StepAddr, StepTy, MemOk;
    if proj == [] {
      assert (proj + [elem])[1..] == [];
    } else {
      assert (proj + [elem])[1..] == proj[1..] + [elem];
      var next := StepAddr(env, mem, a, ty, proj[0]);
      if next.Some? {
        AddrAppend(env, mem, next.value, StepTy(env, ty, proj[0]).value, proj[1..], elem);
      } else {
        TyAppend(env, StepTy(env, ty, proj[0]).value, proj[1..], elem);
      }
    }
  }

  /** Where member `i` begins, whatever kind of aggregate it belongs to. */
  function Before(ty: Ty, i: nat): nat
    requires i <= |Kids(ty)|
  {
    |LeavesAll(Kids(ty)[..i])|
  }

  /** The address of a member is that of the whole, past the cells of the members before it. */
  lemma MemberAddr(env: Env, mem: Mem, p: Place, ty: Ty, elem: Elem, i: nat, a: Addr)
    requires MemOk(env, mem) && PlaceTy(env, p) == Some(ty) && Selects(env, mem, ty, elem, i)
    requires PlaceAddr(env, mem, p) == Some(a) && a.At?
    ensures i < |Kids(ty)| && PlaceTy(env, Extend(p, elem)) == Some(Kids(ty)[i])
    ensures PlaceAddr(env, mem, Extend(p, elem)) == Some(At(a.root, a.off + Before(ty, i)))
  {
    StepTo(env, mem, a, ty, elem, i);
    AddrAppend(env, mem, At(p.root, 0), env.roots[p.root], p.proj, elem);
    TyAppend(env, env.roots[p.root], p.proj, elem);
    hide StepAddr, StepTy, AddrFrom, TyFrom, MemOk, Selects, Before, Kids;
  }

  lemma StepTo(env: Env, mem: Mem, a: Addr, ty: Ty, elem: Elem, i: nat)
    requires MemOk(env, mem) && Selects(env, mem, ty, elem, i) && a.At?
    ensures StepTy(env, ty, elem) == Some(Kids(ty)[i])
    ensures StepAddr(env, mem, a, ty, elem) == Some(At(a.root, a.off + Before(ty, i)))
  {
    if ty.Array? {
      assert Kids(ty)[..i] == seq(i, _ => ty.elem);
      RepeatIsAll(ty.elem, i);
    }
    hide LeavesAll, Leaves, MemOk, IndexValue;
  }

  // ----- cells -----

  lemma {:induction false} LeavesJoin(a: seq<Ty>, b: seq<Ty>)
    ensures LeavesAll(a + b) == LeavesAll(a) + LeavesAll(b)
  {
    hide Leaves;
    if a == [] {
      assert a + b == b;
    } else {
      assert (a + b)[1..] == a[1..] + b;
      LeavesJoin(a[1..], b);
    }
  }

  /** The cells of member `i` follow those of the members before it. */
  lemma MemberLeaves(ty: Ty, i: nat)
    requires IsAggregate(ty) && i < |Kids(ty)|
    ensures Before(ty, i) + Size(Kids(ty)[i]) <= Size(ty)
    ensures Size(ty) == |Leaves(ty)| && Part(Leaves(ty), Before(ty, i), Size(Kids(ty)[i])) == Leaves(Kids(ty)[i])
  {
    var kids := Kids(ty);
    LeavesOfKids(ty);
    hide Leaves, Kids;
    assert kids == kids[..i] + kids[i..];
    assert kids[i..][0] == kids[i];
    LeavesJoin(kids[..i], kids[i..]);
    var rest := LeavesAll(kids[i..][1..]);
    assert LeavesAll(kids[i..]) == Leaves(kids[i]) + rest;
    assert Leaves(ty) == LeavesAll(kids[..i]) + Leaves(kids[i]) + rest;
  }

  lemma {:induction false} BeforeGrows(ty: Ty, i: nat, j: nat)
    requires i < j <= |Kids(ty)|
    ensures Before(ty, i) + Size(Kids(ty)[i]) <= Before(ty, j)
    decreases j
  {
    var kids := Kids(ty);
    hide Kids, Leaves;
    assert kids[..j] == kids[..i] + kids[i..j];
    assert kids[i..j][0] == kids[i];
    LeavesJoin(kids[..i], kids[i..j]);
  }

  // ----- members of an aggregate -----

  /** Member `i` of a list of operands, by cells. */
  lemma {:induction false} MemberValue(env: Env, mem: Mem, os: seq<Operand>, tys: seq<Ty>, i: nat, v: Val)
    requires MemOk(env, mem) && |os| == |tys| && i < |os|
    requires forall k :: 0 <= k < |os| ==> OperandOk(env, os[k], tys[k])
    requires EvalAll(env, mem, os, tys) == Some(v)
    ensures |LeavesAll(tys[..i])| + Size(tys[i]) <= |v|
    ensures EvalOperand(env, mem, os[i], tys[i]) == Some(Part(v, |LeavesAll(tys[..i])|, Size(tys[i])))
    decreases i
  {
    hide *;
    var head, tail := FirstValue(env, mem, os, tys, v);
    if i == 0 {
      NoTypes(tys);
      PartOfJoin(head, tail, 0, Size(tys[0]));
    } else {
      MemberValue(env, mem, os[1..], tys[1..], i - 1, tail);
      var s := |LeavesAll(tys[1..][..i - 1])|;
      LeavesBefore(tys, i);
      PartOfJoin(head, tail, |head| + s, Size(tys[i]));
    }
  }

  lemma FirstValue(env: Env, mem: Mem, os: seq<Operand>, tys: seq<Ty>, v: Val) returns (head: Val, tail: Val)
    requires MemOk(env, mem) && |os| == |tys| && os != []
    requires forall k :: 0 <= k < |os| ==> OperandOk(env, os[k], tys[k])
    requires EvalAll(env, mem, os, tys) == Some(v)
    ensures forall k :: 0 <= k < |os[1..]| ==> OperandOk(env, os[1..][k], tys[1..][k])
    ensures EvalOperand(env, mem, os[0], tys[0]) == Some(head) && EvalAll(env, mem, os[1..], tys[1..]) == Some(tail)
    ensures v == head + tail && |head| == Size(tys[0])
  {
    hide MemOk, OperandOk, EvalOperand, Leaves;
    head := EvalOperand(env, mem, os[0], tys[0]).value;
    tail := EvalAll(env, mem, os[1..], tys[1..]).value;
    ValLengths(head, Leaves(tys[0]));
  }

  lemma NoTypes(tys: seq<Ty>)
    ensures LeavesAll(tys[..0]) == []
  {
  }

  lemma LeavesBefore(tys: seq<Ty>, i: nat)
    requires 0 < i <= |tys|
    ensures |LeavesAll(tys[..i])| == Size(tys[0]) + |LeavesAll(tys[1..][..i - 1])|
  {
    hide Leaves;
    assert tys[..i][1..] == tys[1..][..i - 1];
  }

  lemma PartOfJoin(a: Val, b: Val, lo: nat, n: nat)
    requires (lo == 0 && n == |a|) || (|a| <= lo && lo + n <= |a| + |b|)
    ensures Part(a + b, lo, n) == if lo == 0 && n == |a| then a else Part(b, lo - |a|, n)
  {
  }

  lemma ValLengths(v: Val, ls: seq<Leaf>)
    requires ValOk(v, ls)
    ensures |v| == |ls|
  {
  }

  /** `n` cells from `lo` on. */
  function Part<T>(s: seq<T>, lo: nat, n: nat): (r: seq<T>)
    requires lo + n <= |s|
    ensures |r| == n
  {
    s[lo..lo + n]
  }

  lemma PartOfPart<T>(s: seq<T>, off: nat, n: nat, lo: nat, k: nat)
    requires off + n <= |s| && lo + k <= n
    ensures Part(Part(s, off, n), lo, k) == Part(s, off + lo, k)
  {
    var x, y := Part(Part(s, off, n), lo, k), Part(s, off + lo, k);
    hide Part;
    forall j | 0 <= j < k ensures x[j] == y[j] {
      PartAt(Part(s, off, n), lo, k, j);
      PartAt(s, off, n, lo + j);
      PartAt(s, off + lo, k, j);
    }
  }

  lemma PartAt<T>(s: seq<T>, lo: nat, n: nat, j: nat)
    requires lo + n <= |s| && j < n
    ensures Part(s, lo, n)[j] == s[lo + j]
  {
  }

  /** What is read from a member is the part of what is read from the whole. */
  lemma ReadMember(env: Env, mem: Mem, a: Addr, ty: Ty, i: nat)
    requires MemOk(env, mem) && IsAggregate(ty) && i < |Kids(ty)| && Load(env, mem, a, ty).Some? && a.At?
    ensures Before(ty, i) + Size(Kids(ty)[i]) <= |Load(env, mem, a, ty).value|
    ensures Load(env, mem, At(a.root, a.off + Before(ty, i)), Kids(ty)[i]) ==
            Some(Part(Load(env, mem, a, ty).value, Before(ty, i), Size(Kids(ty)[i])))
  {
    var lo, n := Before(ty, i), Size(Kids(ty)[i]);
    hide *;
    MemberLeaves(ty, i);
    LoadParts(env, mem, a, ty);
    PartOfPart(Leaves(env.roots[a.root]), a.off, Size(ty), lo, n);
    PartOfPart(mem[a.root], a.off, Size(ty), lo, n);
    LoadFrom(env, mem, At(a.root, a.off + lo), Kids(ty)[i]);
  }

  lemma LoadParts(env: Env, mem: Mem, a: Addr, ty: Ty)
    requires MemOk(env, mem) && Load(env, mem, a, ty).Some?
    ensures a.At? && a.root < |env.roots| == |mem| && 0 <= a.off
    ensures a.off + Size(ty) <= |Leaves(env.roots[a.root])| == |mem[a.root]|
    ensures Part(Leaves(env.roots[a.root]), a.off, Size(ty)) == Leaves(ty)
    ensures Load(env, mem, a, ty) == Some(Part(mem[a.root], a.off, Size(ty)))
  {
    ValLengths(mem[a.root], Leaves(env.roots[a.root]));
    hide Leaves, ValOk;
  }

  lemma LoadFrom(env: Env, mem: Mem, a: Addr, ty: Ty)
    requires MemOk(env, mem) && a.At? && a.root < |env.roots| == |mem| && 0 <= a.off
    requires a.off + Size(ty) <= |Leaves(env.roots[a.root])| == |mem[a.root]|
    requires Part(Leaves(env.roots[a.root]), a.off, Size(ty)) == Leaves(ty)
    ensures Load(env, mem, a, ty) == Some(Part(mem[a.root], a.off, Size(ty)))
  {
    hide Leaves, ValOk, MemOk;
  }

  lemma StoreParts(env: Env, mem: Mem, a: Addr, ty: Ty, v: Val)
    requires MemOk(env, mem) && ValOk(v, Leaves(ty)) && Store(env, mem, a, ty, v).Some?
    ensures |v| == Size(ty) && Accessible(env, a, ty) && a.root < |mem| && a.off + |v| <= |mem[a.root]|
    ensures Store(env, mem, a, ty, v) == Some(mem[a.root := Splice(mem[a.root], a.off, v)])
  {
    ValLengths(v, Leaves(ty));
    ValLengths(mem[a.root], Leaves(env.roots[a.root]));
    hide Leaves, ValOk, Splice;
  }

  lemma StoreThenLoad(env: Env, mem: Mem, a: Addr, ty: Ty, v: Val)
    requires MemOk(env, mem) && ValOk(v, Leaves(ty)) && Store(env, mem, a, ty, v).Some?
    ensures Load(env, Store(env, mem, a, ty, v).value, a, ty) == Some(v)
  {
    StoreParts(env, mem, a, ty, v);
    hide Leaves, MemOk, ValOk, Store;
    SplicedPart(mem[a.root], a.off, v);
  }

  lemma SplicedPart(s: Val, off: nat, v: Val)
    requires off + |v| <= |s|
    ensures Part(Splice(s, off, v), off, |v|) == v
  {
  }

  lemma SplicedRest(s: Val, off: nat, v: Val, lo: nat, n: nat)
    requires off + |v| <= |s| && lo + n <= |s| && (lo + n <= off || off + |v| <= lo)
    ensures Part(Splice(s, off, v), lo, n) == Part(s, lo, n)
  {
  }

  /** A store leaves the cells outside it. */
  lemma LoadElsewhere(env: Env, mem: Mem, a: Addr, ty: Ty, v: Val, b: Addr, other: Ty)
    requires MemOk(env, mem) && ValOk(v, Leaves(ty)) && Store(env, mem, a, ty, v).Some?
    requires b.At? && (b.root != a.root || b.off + Size(other) <= a.off || a.off + Size(ty) <= b.off)
    ensures Load(env, Store(env, mem, a, ty, v).value, b, other) == Load(env, mem, b, other)
  {
    var m := Store(env, mem, a, ty, v).value;
    StoreParts(env, mem, a, ty, v);
    LoadIs(env, mem, b, other);
    LoadIs(env, m, b, other);
    hide *;
    if Accessible(env, b, other) && b.root == a.root {
      SplicedRest(mem[a.root], a.off, v, b.off, Size(other));
    }
  }

  lemma LoadIs(env: Env, mem: Mem, a: Addr, ty: Ty)
    requires MemOk(env, mem) && a.At?
    ensures Accessible(env, a, ty) ==> 0 <= a.off && a.root < |mem| && a.off + Size(ty) <= |mem[a.root]|
    ensures Load(env, mem, a, ty) ==
            if Accessible(env, a, ty) then Some(Part(mem[a.root], a.off, Size(ty))) else None
  {
    if Accessible(env, a, ty) {
      ValLengths(mem[a.root], Leaves(env.roots[a.root]));
    }
    hide Leaves, ValOk;
  }

  // ----- the laws -----

  /** Once an aggregate is assigned to a place, its members are found where the place says: field or element `i`
      holds what operand `i` was, as long as the place still is where it was. */
  lemma AggregateMember(env: Env, mem: Mem, p: Place, ty: Ty, os: seq<Operand>, m: Mem, elem: Elem, i: nat)
    requires MemOk(env, mem) && PlaceTy(env, p) == Some(ty) && RvalueOk(env, Aggregate(os), ty)
    requires ExecStmt(env, mem, Assign(p, Aggregate(os))) == Some(m)
    requires PlaceAddr(env, m, p) == PlaceAddr(env, mem, p) && Selects(env, m, ty, elem, i)
    ensures i < |os| == |Kids(ty)| && OperandOk(env, os[i], Kids(ty)[i])
    ensures PlaceTy(env, Extend(p, elem)) == Some(Kids(ty)[i])
    ensures EvalOperand(env, m, Copy(Extend(p, elem)), Kids(ty)[i]) == EvalOperand(env, mem, os[i], Kids(ty)[i])
  {
    hide *;
    AggregateIs(env, os, ty);
    var v, a := AssignedWhere(env, mem, p, Aggregate(os), ty, m);
    AggregateCells(env, mem, os, ty, v);
    StoreThenLoad(env, mem, a, ty, v);
    MemberAddr(env, m, p, ty, elem, i, a);
    ReadMember(env, m, a, ty, i);
    MemberValue(env, mem, os, Kids(ty), i, v);
    CopyIs(env, m, Extend(p, elem), Kids(ty)[i]);
    BeforeIs(ty, i);
  }

  lemma AggregateIs(env: Env, os: seq<Operand>, ty: Ty)
    requires RvalueOk(env, Aggregate(os), ty)
    ensures !ty.Void? && IsAggregate(ty)
  {
  }

  lemma BeforeIs(ty: Ty, i: nat)
    requires i <= |Kids(ty)|
    ensures Before(ty, i) == |LeavesAll(Kids(ty)[..i])|
  {
  }

  /** What an assignment stores, and where. */
  lemma AssignedWhere(env: Env, mem: Mem, p: Place, rv: Rvalue, ty: Ty, m: Mem) returns (v: Val, a: Addr)
    requires MemOk(env, mem) && PlaceTy(env, p) == Some(ty) && RvalueOk(env, rv, ty) && !ty.Void?
    requires ExecStmt(env, mem, Assign(p, rv)) == Some(m)
    ensures EvalRvalue(env, mem, rv, ty) == Some(v) && ValOk(v, Leaves(ty)) && MemOk(env, m)
    ensures PlaceAddr(env, mem, p) == Some(a) && a.At? && Store(env, mem, a, ty, v) == Some(m)
  {
    EvalRvalueOk(env, mem, rv, ty);
    hide RvalueOk, EvalRvalue, PlaceAddr, PlaceTy, MemOk, ValOk, Leaves;
    v := EvalRvalue(env, mem, rv, ty).value;
    a := PlaceAddr(env, mem, p).value;
  }

  lemma AggregateCells(env: Env, mem: Mem, os: seq<Operand>, ty: Ty, v: Val)
    requires MemOk(env, mem) && RvalueOk(env, Aggregate(os), ty) && EvalRvalue(env, mem, Aggregate(os), ty) == Some(v)
    ensures IsAggregate(ty) && |os| == |Kids(ty)| && EvalAll(env, mem, os, Kids(ty)) == Some(v)
    ensures forall k :: 0 <= k < |os| ==> OperandOk(env, os[k], Kids(ty)[k])
  {
    hide MemOk, OperandOk, EvalAll, Kids;
  }

  lemma CopyIs(env: Env, mem: Mem, p: Place, ty: Ty)
    requires MemOk(env, mem) && PlaceTy(env, p) == Some(ty)
    ensures OperandOk(env, Copy(p), ty)
    ensures EvalOperand(env, mem, Copy(p), ty) ==
            if PlaceAddr(env, mem, p).Some? then Load(env, mem, PlaceAddr(env, mem, p).value, ty) else None
  {
    hide MemOk, PlaceTy, PlaceAddr, Load;
  }

  /** What is assigned to one member is read back from it, */
  lemma MemberReadBack(env: Env, mem: Mem, p: Place, ty: Ty, elem: Elem, i: nat, rv: Rvalue, m: Mem)
    requires MemOk(env, mem) && PlaceTy(env, p) == Some(ty) && IsAggregate(ty) && Selects(env, mem, ty, elem, i)
    requires RvalueOk(env, rv, Kids(ty)[i]) && !Kids(ty)[i].Void?
    requires PlaceTy(env, Extend(p, elem)) == Some(Kids(ty)[i])
    requires ExecStmt(env, mem, Assign(Extend(p, elem), rv)) == Some(m)
    requires PlaceAddr(env, m, Extend(p, elem)) == PlaceAddr(env, mem, Extend(p, elem))
    ensures EvalOperand(env, m, Copy(Extend(p, elem)), Kids(ty)[i]) == EvalRvalue(env, mem, rv, Kids(ty)[i])
  {
    var q, kid := Extend(p, elem), Kids(ty)[i];
    var v, a := AssignedWhere(env, mem, q, rv, kid, m);
    hide *;
    StoreThenLoad(env, mem, a, kid, v);
    CopyIs(env, m, q, kid);
  }

  /** and every other member is read as before. */
  lemma OtherMembersStay(env: Env, mem: Mem, p: Place, ty: Ty, elem: Elem, i: nat, rv: Rvalue, m: Mem, other: Elem,
      j: nat)
    requires MemOk(env, mem) && PlaceTy(env, p) == Some(ty) && IsAggregate(ty) && Selects(env, mem, ty, elem, i)
    requires RvalueOk(env, rv, Kids(ty)[i]) && !Kids(ty)[i].Void?
    requires PlaceTy(env, Extend(p, elem)) == Some(Kids(ty)[i])
    requires ExecStmt(env, mem, Assign(Extend(p, elem), rv)) == Some(m)
    requires PlaceAddr(env, m, p) == PlaceAddr(env, mem, p) && PlaceAddr(env, mem, p).Some?
    requires j != i && Selects(env, mem, ty, other, j) && Selects(env, m, ty, other, j)
    ensures OperandOk(env, Copy(Extend(p, other)), Kids(ty)[j])
    ensures EvalOperand(env, m, Copy(Extend(p, other)), Kids(ty)[j]) ==
            EvalOperand(env, mem, Copy(Extend(p, other)), Kids(ty)[j])
  {
    var v, b := AssignedWhere(env, mem, Extend(p, elem), rv, Kids(ty)[i], m);
    hide *;
    var a := PlaceAddr(env, mem, p).value;
    MemberOf(env, mem, p, ty, elem, i);
    MemberAddr(env, mem, p, ty, elem, i, a);
    MemberAddr(env, mem, p, ty, other, j, a);
    MemberAddr(env, m, p, ty, other, j, a);
    if i < j {
      BeforeGrows(ty, i, j);
    } else {
      BeforeGrows(ty, j, i);
    }
    LoadElsewhere(env, mem, b, Kids(ty)[i], v, At(a.root, a.off + Before(ty, j)), Kids(ty)[j]);
    CopyIs(env, mem, Extend(p, other), Kids(ty)[j]);
    CopyIs(env, m, Extend(p, other), Kids(ty)[j]);
  }

  /** A place with an addressable member is itself somewhere. */
  lemma MemberOf(env: Env, mem: Mem, p: Place, ty: Ty, elem: Elem, i: nat)
    requires MemOk(env, mem) && PlaceTy(env, p) == Some(ty) && Selects(env, mem, ty, elem, i)
    requires PlaceAddr(env, mem, p).Some?
    requires PlaceTy(env, Extend(p, elem)).Some? && PlaceAddr(env, mem, Extend(p, elem)).Some?
    ensures PlaceAddr(env, mem, p).value.At?
  {
    AddrAppend(env, mem, At(p.root, 0), env.roots[p.root], p.proj, elem);
    hide AddrFrom, TyFrom, MemOk, IndexValue;
  }

  // ----- pointers -----

  lemma ExtendParts(env: Env, mem: Mem, q: Place, elem: Elem)
    requires MemOk(env, mem) && PlaceTy(env, q).Some? && StepTy(env, PlaceTy(env, q).value, elem).Some?
    ensures PlaceTy(env, Extend(q, elem)) == StepTy(env, PlaceTy(env, q).value, elem)
    ensures var b := PlaceAddr(env, mem, q);
            PlaceAddr(env, mem, Extend(q, elem)) ==
            if b.Some? then StepAddr(env, mem, b.value, PlaceTy(env, q).value, elem) else None
  {
    AddrAppend(env, mem, At(q.root, 0), env.roots[q.root], q.proj, elem);
    TyAppend(env, env.roots[q.root], q.proj, elem);
    hide StepAddr, StepTy, AddrFrom, TyFrom, MemOk;
  }

  lemma PointerValue(env: Env, mem: Mem, q: Place, ty: Ty, a: Addr)
    requires MemOk(env, mem) && PlaceTy(env, q) == Some(ty) && ty.IsPointer()
    requires EvalOperand(env, mem, Copy(q), ty) == Some([SPtr(a)])
    ensures PlaceAddr(env, mem, q).Some? && LoadPtr(env, mem, PlaceAddr(env, mem, q).value, ty) == Some(a)
  {
    hide MemOk, PlaceTy, PlaceAddr, Load;
  }

  predicate PointsTo(env: Env, ty: Ty, t: Ty) {
    ty == ManyPointer(t) || (ty.Pointer? && ty.target < |env.types| && env.types[ty.target] == t)
  }

  /** The address of a place, assigned to a pointer, leads back to the place. */
  lemma RefThenDeref(env: Env, mem: Mem, p: Place, q: Place, ty: Ty, m: Mem)
    requires MemOk(env, mem) && PlaceTy(env, p).Some? && PlaceTy(env, q) == Some(ty) && ty.IsPointer()
    requires StepTy(env, ty, Deref).Some?
    requires ExecStmt(env, mem, Assign(q, Ref(p))) == Some(m)
    requires PlaceAddr(env, m, q) == PlaceAddr(env, mem, q)
    ensures PlaceTy(env, Extend(q, Deref)).Some? && MemOk(env, m)
    ensures PlaceAddr(env, m, Extend(q, Deref)) == PlaceAddr(env, mem, p)
    ensures forall t :: PointsTo(env, ty, t) ==> PlaceTy(env, Extend(q, Deref)) == Some(t)
  {
    assert RvalueOk(env, Ref(p), ty);
    var v, a := AssignedWhere(env, mem, q, Ref(p), ty, m);
    RefIs(env, mem, p, ty, v);
    hide *;
    StoreThenLoad(env, mem, a, ty, v);
    CopyIs(env, m, q, ty);
    PointerValue(env, m, q, ty, PlaceAddr(env, mem, p).value);
    ExtendParts(env, m, q, Deref);
    DerefStep(env, m, a, ty);
  }

  lemma RefIs(env: Env, mem: Mem, p: Place, ty: Ty, v: Val)
    requires MemOk(env, mem) && PlaceTy(env, p).Some? && ty.IsPointer()
    requires RvalueOk(env, Ref(p), ty) && EvalRvalue(env, mem, Ref(p), ty) == Some(v)
    ensures PlaceAddr(env, mem, p).Some? && v == [SPtr(PlaceAddr(env, mem, p).value)]
  {
    hide MemOk, PlaceTy, PlaceAddr;
  }

  lemma DerefStep(env: Env, mem: Mem, a: Addr, ty: Ty)
    requires MemOk(env, mem) && ty.IsPointer() && StepTy(env, ty, Deref).Some?
    ensures StepAddr(env, mem, a, ty, Deref) == LoadPtr(env, mem, a, ty)
  {
    hide MemOk, LoadPtr;
  }

  /** Behind a many-item pointer to an array lie the elements of the array. */
  lemma IndexThroughPointer(env: Env, mem: Mem, p: Place, n: nat, q: Place, item: Ty, l: nat, i: nat)
    requires MemOk(env, mem) && PlaceTy(env, p) == Some(Array(item, n)) && PlaceTy(env, q) == Some(ManyPointer(item))
    requires PlaceAddr(env, mem, p).Some? && PlaceAddr(env, mem, p).value.At?
    requires EvalOperand(env, mem, Copy(q), ManyPointer(item)) == Some([SPtr(PlaceAddr(env, mem, p).value)])
    requires Selects(env, mem, Array(item, n), Index(l), i)
    ensures PlaceTy(env, Extend(q, Index(l))) == PlaceTy(env, Extend(p, Index(l))) == Some(item)
    ensures PlaceAddr(env, mem, Extend(q, Index(l))) == PlaceAddr(env, mem, Extend(p, Index(l))) != None
  {
    PointerValue(env, mem, q, ManyPointer(item), PlaceAddr(env, mem, p).value);
    ExtendParts(env, mem, p, Index(l));
    ExtendParts(env, mem, q, Index(l));
    hide MemOk, PlaceTy, PlaceAddr, LoadPtr, Extend, IndexValue, Size;
  }

  // ----- places that stay where they are -----

  /** No step goes through a pointer, and no index is read from the root itself. */
  predicate Direct(env: Env, root: nat, ty: Ty, proj: seq<Elem>)
    decreases |proj|
  {
    proj == [] ||
    (&& StepTy(env, ty, proj[0]).Some?
     && (proj[0].Field? || (proj[0].Index? && ty.Array? && proj[0].local != root))
     && Direct(env, root, StepTy(env, ty, proj[0]).value, proj[1..]))
  }

  lemma {:induction false} DirectFrom(env: Env, mem: Mem, m: Mem, root: nat, off: int, ty: Ty, proj: seq<Elem>)
    requires MemOk(env, mem) && MemOk(env, m) && TyFrom(env, ty, proj).Some? && Direct(env, root, ty, proj)
    requires forall r :: 0 <= r < |mem| && r != root ==> m[r] == mem[r]
    ensures AddrFrom(env, m, At(root, off), ty, proj) == AddrFrom(env, mem, At(root, off), ty, proj)
    ensures var a := AddrFrom(env, mem, At(root, off), ty, proj); a.Some? ==> a.value.At? && a.value.root == root
    decreases |proj|
  {
    if proj != [] {
      DirectStep(env, mem, m, root, off, ty, proj[0]);
      hide StepAddr, StepTy, MemOk;
      var next := StepAddr(env, mem, At(root, off), ty, proj[0]);
      if next.Some? {
        DirectFrom(env, mem, m, root, next.value.off, StepTy(env, ty, proj[0]).value, proj[1..]);
      }
    }
  }

  lemma DirectStep(env: Env, mem: Mem, m: Mem, root: nat, off: int, ty: Ty, elem: Elem)
    requires MemOk(env, mem) && MemOk(env, m) && StepTy(env, ty, elem).Some?
    requires elem.Field? || (elem.Index? && ty.Array? && elem.local != root)
    requires forall r :: 0 <= r < |mem| && r != root ==> m[r] == mem[r]
    ensures StepAddr(env, m, At(root, off), ty, elem) == StepAddr(env, mem, At(root, off), ty, elem)
    ensures var a := StepAddr(env, mem, At(root, off), ty, elem); a.Some? ==> a.value.At? && a.value.root == root
  {
    hide Leaves, ValOk, Kids, KidOff;
    if elem.Index? {
      assert elem.local < |mem| == |m|;
    }
  }

  /** Such a place is where it was after every assignment to it or to a part of it. */
  lemma DirectStays(env: Env, mem: Mem, p: Place, rest: seq<Elem>, rv: Rvalue, m: Mem)
    requires MemOk(env, mem) && PlaceTy(env, p).Some? && p.root < |env.roots|
    requires Direct(env, p.root, env.roots[p.root], p.proj + rest)
    requires StmtOk(env, Assign(Place(p.root, p.proj + rest), rv))
    requires ExecStmt(env, mem, Assign(Place(p.root, p.proj + rest), rv)) == Some(m)
    ensures PlaceAddr(env, m, p) == PlaceAddr(env, mem, p)
  {
    var q := Place(p.root, p.proj + rest);
    DirectPrefix(env, p.root, env.roots[p.root], p.proj, rest);
    if PlaceTy(env, q).value.Void? {
      assert m == mem;
    } else {
      var v, a := AssignedWhere(env, mem, q, rv, PlaceTy(env, q).value, m);
      DirectFrom(env, mem, mem, p.root, 0, env.roots[p.root], q.proj);
      StoreParts(env, mem, a, PlaceTy(env, q).value, v);
      hide Direct, MemOk, ValOk, Leaves, Store, ExecStmt, StmtOk, RvalueOk, EvalRvalue, AddrFrom, TyFrom, Splice;
      assert a.root == p.root;
      DirectFrom(env, mem, m, p.root, 0, env.roots[p.root], p.proj);
    }
  }

  lemma {:induction false} DirectPrefix(env: Env, root: nat, ty: Ty, proj: seq<Elem>, rest: seq<Elem>)
    requires Direct(env, root, ty, proj + rest)
    ensures Direct(env, root, ty, proj)
    decreases |proj|
  {
    hide StepTy;
    if proj != [] {
      assert (proj + rest)[0] == proj[0] && (proj + rest)[1..] == proj[1..] + rest;
      DirectPrefix(env, root, StepTy(env, ty, proj[0]).value, proj[1..], rest);
    }
  }
}
