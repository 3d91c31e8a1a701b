/**
 The middle intermediate representation that the backend reads: typed places, operands, statements
 and terminators of one function, together with what they mean.

 Memory is a sequence of roots (the locals of the function, then the globals and every other object
 it can reach).  Each root is a flat sequence of scalar cells laid out by its type; an address is a
 root and a cell offset.  A value is the sequence of scalars that its type flattens to.
 */
module Mir {
  import opened Wrappers
  import opened Arith
  import opened Floats

  // ----- types -----

  type Width = w: nat | 1 <= w <= 64 witness 8

  /** `Pointer` names its target by an index into the interner, so that types may be recursive through
      pointers; a slice is the pair of a many-item pointer and a length, and an enum without payloads is the
      unsigned 8-bit integer of its tag. */
  datatype Ty =
    | Int(bits: Width, signed: bool)
    | Bool
    | Float(double: bool)
    | Pointer(target: nat)
    | ManyPointer(item: Ty)
    | Array(elem: Ty, len: nat)
    | Struct(fields: seq<Ty>)
    | Slice(item: Ty)
    | Void
  {
    predicate IsPointer() {
      Pointer? || ManyPointer?
    }
  }

  /** The width of a pointer-sized integer.  It is left open: nothing depends on its value. */
  const PTR_BITS: Width

  const USIZE: Ty := Int(PTR_BITS, false)

  /** The shape of one memory cell. */
  datatype Leaf = LInt(bits: Width, signed: bool) | LBool | LFloat(double: bool) | LPtr

  function Repeat<T>(s: seq<T>, n: nat): (r: seq<T>)
    ensures |r| == n * |s|
  {
    if n == 0 then [] else s + Repeat(s, n - 1)
  }

  function Leaves(ty: Ty): seq<Leaf>
    decreases ty, 1
  {
    match ty
    case Int(w, s) => [LInt(w, s)]
    case Bool => [LBool]
    case Float(d) => [LFloat(d)]
    case Pointer(_) => [LPtr]
    case ManyPointer(_) => [LPtr]
    case Array(e, n) => Repeat(Leaves(e), n)
    case Struct(fs) => LeavesAll(fs)
    case Slice(_) => [LPtr, LInt(PTR_BITS, false)]
    case Void => []
  }

  function LeavesAll(tys: seq<Ty>): seq<Leaf>
    decreases tys, 0
  {
    if tys == [] then [] else Leaves(tys[0]) + LeavesAll(tys[1..])
  }

  function Size(ty: Ty): nat {
    |Leaves(ty)|
  }

  function SizeAll(tys: seq<Ty>): nat {
    |LeavesAll(tys)|
  }

  /** The members of an aggregate, in layout order. */
  function Kids(ty: Ty): seq<Ty> {
    match ty
    case Array(e, n) => seq(n, _ => e)
    case Struct(fs) => fs
    case Slice(e) => [ManyPointer(e), USIZE]
    case _ => []
  }

  predicate IsAggregate(ty: Ty) {
    ty.Array? || ty.Struct? || ty.Slice?
  }

  function KidOff(ty: Ty, i: nat): nat
    requires i <= |Kids(ty)|
  {
    SizeAll(Kids(ty)[..i])
  }

  // ----- values and memory -----

  datatype Addr = Null | At(root: nat, off: int)

  /** A float is its bit pattern. */
  datatype Scalar = SInt(n: int) | SBool(b: bool) | SFloat(f: nat) | SPtr(a: Addr) | SUndef

  type Val = seq<Scalar>
  type Mem = seq<Val>

  predicate ScalarOk(s: Scalar, l: Leaf) {
    match (s, l)
    case (SInt(n), LInt(w, signed)) => InRange(n, w, signed)
    case (SBool(_), LBool) => true
    case (SFloat(n), LFloat(d)) => IsFloat(d, n)
    case (SPtr(_), LPtr) => true
    case (SUndef, _) => true
    case _ => false
  }

  predicate ValOk(v: Val, ls: seq<Leaf>) {
    |v| == |ls| && forall i :: 0 <= i < |v| ==> ScalarOk(v[i], ls[i])
  }

  /** The interner, the type of every root, and how many of the roots are locals. */
  datatype Env = Env(types: seq<Ty>, roots: seq<Ty>, locals: nat)

  predicate EnvOk(env: Env) {
    env.locals <= |env.roots|
  }

  predicate MemOk(env: Env, mem: Mem) {
    |mem| == |env.roots| && forall r :: 0 <= r < |mem| ==> ValOk(mem[r], Leaves(env.roots[r]))
  }

  /** Address `a` may be accessed at type `ty`: the cells exist and have the shape of `ty`. */
  predicate Accessible(env: Env, a: Addr, ty: Ty) {
    a.At? && a.root < |env.roots| && 0 <= a.off
    && a.off + Size(ty) <= Size(env.roots[a.root])
    && Leaves(env.roots[a.root])[a.off..a.off + Size(ty)] == Leaves(ty)
  }

  function Load(env: Env, mem: Mem, a: Addr, ty: Ty): (v: Option<Val>)
    requires MemOk(env, mem)
    ensures v.Some? ==> ValOk(v.value, Leaves(ty))
  {
    if Accessible(env, a, ty) then
      ValOkSlice(mem[a.root], Leaves(env.roots[a.root]), a.off, Leaves(ty));
      Some(mem[a.root][a.off..a.off + Size(ty)])
    else None
  }

  function Store(env: Env, mem: Mem, a: Addr, ty: Ty, v: Val): (m: Option<Mem>)
    requires MemOk(env, mem) && ValOk(v, Leaves(ty))
    ensures m.Some? ==> MemOk(env, m.value)
  {
    if Accessible(env, a, ty) then
      ValOkSplice(mem[a.root], Leaves(env.roots[a.root]), a.off, v, Leaves(ty));
      Some(mem[a.root := Splice(mem[a.root], a.off, v)])
    else None
  }

  lemma ValOkSlice(v: Val, ls: seq<Leaf>, off: nat, xs: seq<Leaf>)
    requires ValOk(v, ls) && off + |xs| <= |ls| && ls[off..off + |xs|] == xs
    ensures off + |xs| <= |v| && ValOk(v[off..off + |xs|], xs)
  {
    hide ScalarOk;
    assert forall i :: 0 <= i < |xs| ==> xs[i] == ls[off + i];
  }

  lemma ValOkSplice(v: Val, ls: seq<Leaf>, off: nat, x: Val, xs: seq<Leaf>)
    requires ValOk(v, ls) && ValOk(x, xs) && off + |xs| <= |ls| && ls[off..off + |xs|] == xs
    ensures |x| == |xs| && off + |x| <= |v| && ValOk(Splice(v, off, x), ls)
  {
    hide ScalarOk;
    var cells := Splice(v, off, x);
    forall i | 0 <= i < |cells| ensures ScalarOk(cells[i], ls[i]) {
      if off <= i < off + |x| {
        assert ls[i] == xs[i - off];
      }
    }
  }

  /** `s` with the elements from `off` on overwritten by `v`. */
  function Splice<T>(s: seq<T>, off: nat, v: seq<T>): (r: seq<T>)
    requires off + |v| <= |s|
    ensures |r| == |s|
    ensures forall i :: 0 <= i < |s| ==> r[i] == if off <= i < off + |v| then v[i - off] else s[i]
  {
    s[..off] + v + s[off + |v|..]
  }

  // ----- places -----

  datatype Elem = Field(index: nat) | Index(local: nat) | Deref

  datatype Place = Place(root: nat, proj: seq<Elem>)

  function StepTy(env: Env, ty: Ty, elem: Elem): Option<Ty> {
    match elem
    case Field(i) => if (ty.Struct? || ty.Slice?) && i < |Kids(ty)| then Some(Kids(ty)[i]) else None
    case Index(l) =>
      if l >= env.locals || l >= |env.roots| || env.roots[l] != USIZE then None
      else if ty.Array? then Some(ty.elem)
      else if ty.ManyPointer? then Some(ty.item)
      else None
    case Deref =>
      if ty.ManyPointer? then Some(ty.item)
      else if ty.Pointer? && ty.target < |env.types| then Some(env.types[ty.target])
      else None
  }

  function TyFrom(env: Env, ty: Ty, proj: seq<Elem>): Option<Ty>
    decreases |proj|
  {
    if proj == [] then Some(ty)
    else
      var next :- StepTy(env, ty, proj[0]);
      TyFrom(env, next, proj[1..])
  }

  function PlaceTy(env: Env, p: Place): Option<Ty> {
    if p.root < |env.roots| then TyFrom(env, env.roots[p.root], p.proj) else None
  }

  function LoadPtr(env: Env, mem: Mem, a: Addr, ty: Ty): Option<Addr>
    requires MemOk(env, mem) && ty.IsPointer()
  {
    var v :- Load(env, mem, a, ty);
    if v[0].SPtr? then Some(v[0].a) else None
  }

  function IndexValue(env: Env, mem: Mem, l: nat): (n: Option<int>)
    requires MemOk(env, mem) && l < |env.roots| && env.roots[l] == USIZE
    ensures n.Some? ==> 0 <= n.value < Pow2(PTR_BITS)
  {
    assert ScalarOk(mem[l][0], Leaves(env.roots[l])[0]);
    if mem[l][0].SInt? then Some(mem[l][0].n) else None
  }

  /** One projection step.  An index may reach one past the end of an array, as an address; reading
      through it is what `Accessible` rules out. */
  function StepAddr(env: Env, mem: Mem, a: Addr, ty: Ty, elem: Elem): Option<Addr>
    requires MemOk(env, mem) && StepTy(env, ty, elem).Some?
  {
    match elem
    case Field(i) => if a.At? then Some(At(a.root, a.off + KidOff(ty, i))) else None
    case Index(l) =>
      if ty.Array? then
        var i :- IndexValue(env, mem, l);
        if a.At? && i <= ty.len then Some(At(a.root, a.off + i * Size(ty.elem))) else None
      else
        var base :- LoadPtr(env, mem, a, ty);
        var i :- IndexValue(env, mem, l);
        if base.At? then Some(At(base.root, base.off + i * Size(ty.item))) else None
    case Deref => LoadPtr(env, mem, a, ty)
  }

  function AddrFrom(env: Env, mem: Mem, a: Addr, ty: Ty, proj: seq<Elem>): Option<Addr>
    requires MemOk(env, mem) && TyFrom(env, ty, proj).Some?
    decreases |proj|
  {
    if proj == [] then Some(a)
    else
      var next :- StepAddr(env, mem, a, ty, proj[0]);
      AddrFrom(env, mem, next, StepTy(env, ty, proj[0]).value, proj[1..])
  }

  function PlaceAddr(env: Env, mem: Mem, p: Place): Option<Addr>
    requires MemOk(env, mem) && PlaceTy(env, p).Some?
  {
    AddrFrom(env, mem, At(p.root, 0), env.roots[p.root], p.proj)
  }

  // ----- operands -----

  datatype Operand = Copy(place: Place) | ConstInt(n: int) | ConstBool(b: bool) | ConstNull

  function OperandTy(env: Env, o: Operand): Option<Ty> {
    if o.Copy? then PlaceTy(env, o.place) else None
  }

  /** Operand `o` is usable where a value of type `ty` is wanted without a conversion. */
  predicate OperandOk(env: Env, o: Operand, ty: Ty) {
    match o
    case Copy(p) => PlaceTy(env, p) == Some(ty)
    case ConstInt(_) => ty.Int?
    case ConstBool(_) => ty.Bool?
    case ConstNull => ty.IsPointer()
  }

  function EvalOperand(env: Env, mem: Mem, o: Operand, ty: Ty): (v: Option<Val>)
    requires MemOk(env, mem) && OperandOk(env, o, ty)
    ensures v.Some? ==> ValOk(v.value, Leaves(ty))
  {
    match o
    case Copy(p) =>
      var a :- PlaceAddr(env, mem, p);
      Load(env, mem, a, ty)
    case ConstInt(n) => Some([SInt(Wrap(n, ty.bits, ty.signed))])
    case ConstBool(b) => Some([SBool(b)])
    case ConstNull => Some([SPtr(Null)])
  }

  // ----- binary and unary operators -----

  datatype BinOp =
    | Add | Sub | Mul | Div | Mod
    | BitAnd | BitOr | BitXor | Shl | Shr
    | Eq | Ne | Lt | Gt | Le | Ge
    | LogicalAnd | LogicalOr
  {
    predicate IsEquality() {
      Eq? || Ne?
    }

    predicate IsComparison() {
      Eq? || Ne? || Lt? || Gt? || Le? || Ge?
    }
  }

  predicate BinOpOk(op: BinOp, ty: Ty) {
    match ty
    case Int(_, _) => !op.LogicalAnd? && !op.LogicalOr?
    case Bool => op.IsComparison() || op.LogicalAnd? || op.LogicalOr? || op.BitAnd? || op.BitOr? || op.BitXor?
    case Float(_) => op.IsComparison()
    case Pointer(_) => op.IsEquality()
    case ManyPointer(_) => op.IsEquality()
    case Array(_, _) => op.IsEquality() && Comparable(ty)
    case Slice(_) => op.IsEquality() && Comparable(ty)
    case _ => false
  }

  function BinResultTy(op: BinOp, ty: Ty): Ty {
    if op.IsComparison() then Bool else ty
  }

  /** Bitwise operations on the low `w` bits of two natural numbers, bit by bit. */
  function BitOp(op: BinOp, w: nat, a: nat, b: nat): (r: nat)
    ensures r < Pow2(w)
  {
    if w == 0 then 0
    else BitOf(op, a % 2, b % 2) + 2 * BitOp(op, w - 1, a / 2, b / 2)
  }

  function BitOf(op: BinOp, a: nat, b: nat): nat
    ensures BitOf(op, a, b) <= 1
  {
    match op
    case BitAnd => if a == 1 && b == 1 then 1 else 0
    case BitOr => if a == 1 || b == 1 then 1 else 0
    case _ => if a != b then 1 else 0
  }

  predicate Compare(op: BinOp, x: int, y: int)
    requires op.IsComparison()
  {
    match op
    case Eq => x == y
    case Ne => x != y
    case Lt => x < y
    case Gt => x > y
    case Le => x <= y
    case _ => x >= y
  }

  /** Integer arithmetic on mathematical integers.  Division by zero, a quotient outside the type and
      a shift by the width or more have no meaning. */
  function IntOp(op: BinOp, w: Width, signed: bool, x: int, y: int): Option<int>
    requires !op.IsComparison() && !op.LogicalAnd? && !op.LogicalOr?
  {
    if op.Add? then Some(Wrap(x + y, w, signed))
    else if op.Sub? then Some(Wrap(x - y, w, signed))
    else if op.Mul? then Some(Wrap(x * y, w, signed))
    else if op.Div? || op.Mod? then
      if y == 0 || !InRange(TruncDiv(x, y), w, signed) then None
      else Some(if op.Div? then TruncDiv(x, y) else TruncRem(x, y))
    else if op.Shl? then if 0 <= y < w then Some(Wrap(x * Pow2(y), w, signed)) else None
    else if op.Shr? then if 0 <= y < w then Some(x / Pow2(y)) else None
    else Some(Wrap(BitOp(op, w, x % Pow2(w), y % Pow2(w)), w, signed))
  }

  function BoolOp(op: BinOp, a: bool, b: bool): bool {
    match op
    case LogicalAnd => a && b
    case LogicalOr => a || b
    case BitAnd => a && b
    case BitOr => a || b
    case BitXor => a != b
    case Eq => a == b
    case Ne => a != b
    case Lt => !a && b
    case Gt => a && !b
    case Le => !a || b
    case _ => a || !b
  }

  /** A type that the comparison of aggregates handles: no slice sits inside the elements of a slice. */
  predicate Comparable(ty: Ty)
    decreases ty, 1
  {
    match ty
    case Array(e, _) => Comparable(e)
    case Struct(fs) => ComparableAll(fs)
    case Slice(e) => Comparable(e) && !OpensLoop(e)
    case Void => false
    case _ => true
  }

  predicate ComparableAll(tys: seq<Ty>)
    decreases tys, 0
  {
    tys == [] || (Comparable(tys[0]) && ComparableAll(tys[1..]))
  }

  /** Comparing two values of this type has to walk a slice. */
  predicate OpensLoop(ty: Ty)
    decreases ty, 1
  {
    match ty
    case Array(e, n) => n > 0 && OpensLoop(e)
    case Struct(fs) => OpensLoopAny(fs)
    case Slice(_) => true
    case _ => false
  }

  predicate OpensLoopAny(tys: seq<Ty>)
    decreases tys, 0
  {
    tys != [] && (OpensLoop(tys[0]) || OpensLoopAny(tys[1..]))
  }

  function Depth(ty: Ty): nat
    decreases ty, 1
  {
    match ty
    case Array(e, _) => 1 + Depth(e)
    case Struct(fs) => 1 + DepthAll(fs)
    case Slice(e) => 1 + Depth(e)
    case _ => 0
  }

  function DepthAll(tys: seq<Ty>): (d: nat)
    ensures forall k :: 0 <= k < |tys| ==> Depth(tys[k]) <= d
    decreases tys, 0
  {
    if tys == [] then 0
    else
      assert forall k :: 0 < k < |tys| ==> tys[k] == tys[1..][k - 1];
      Max(Depth(tys[0]), DepthAll(tys[1..]))
  }

  predicate DepthBelow(tys: seq<Ty>, d: nat) {
    forall k :: 0 <= k < |tys| ==> Depth(tys[k]) < d
  }

  lemma KidsBelow(ty: Ty)
    requires ty.Array? || ty.Struct?
    ensures DepthBelow(Kids(ty), Depth(ty))
  {
  }

  /** An ordered comparison: false as soon as an operand is not a number. */
  predicate FloatCompare(op: BinOp, double: bool, x: Scalar, y: Scalar)
    requires op.IsComparison() && x.SFloat? && y.SFloat?
    requires ScalarOk(x, LFloat(double)) && ScalarOk(y, LFloat(double))
  {
    && !IsNaN(double, x.f) && !IsNaN(double, y.f)
    && Compare(op, Key(double, x.f), Key(double, y.f))
  }

  /** Structural equality.  `None` when an operand holds no defined value or a slice of the common
      length cannot be read; two slices of different lengths differ without being read. */
  function SemEq(env: Env, mem: Mem, ty: Ty, a: Val, b: Val): Option<bool>
    requires MemOk(env, mem) && ValOk(a, Leaves(ty)) && ValOk(b, Leaves(ty))
    decreases Depth(ty), 1, 0
  {
    match ty
    case Int(_, _) => if a[0].SInt? && b[0].SInt? then Some(a[0].n == b[0].n) else None
    case Bool => if a[0].SBool? && b[0].SBool? then Some(a[0].b == b[0].b) else None
    case Float(d) => if a[0].SFloat? && b[0].SFloat? then Some(FloatCompare(Eq, d, a[0], b[0])) else None
    case Pointer(_) => if a[0].SPtr? && b[0].SPtr? then Some(a[0].a == b[0].a) else None
    case ManyPointer(_) => if a[0].SPtr? && b[0].SPtr? then Some(a[0].a == b[0].a) else None
    case Void => None
    case Slice(e) =>
      if !(a[0].SPtr? && b[0].SPtr? && a[1].SInt? && b[1].SInt?) then None
      else if a[1].n != b[1].n then Some(false)
      else
        assert ScalarOk(a[1], Leaves(ty)[1]);
        SemEqUpTo(env, mem, e, a[0].a, b[0].a, a[1].n)
    case Array(_, _) =>
      KidsBelow(ty); LeavesOfKids(ty);
      SemEqAll(env, mem, Depth(ty), Kids(ty), a, b)
    case Struct(_) =>
      KidsBelow(ty); LeavesOfKids(ty);
      SemEqAll(env, mem, Depth(ty), Kids(ty), a, b)
  }

  function SemEqAll(env: Env, mem: Mem, d: nat, tys: seq<Ty>, a: Val, b: Val): Option<bool>
    requires MemOk(env, mem) && DepthBelow(tys, d)
    requires ValOk(a, LeavesAll(tys)) && ValOk(b, LeavesAll(tys))
    decreases d, 0, |tys|
  {
    if tys == [] then Some(true)
    else
      var n := Size(tys[0]);
      ValOkSplit(a, Leaves(tys[0]), LeavesAll(tys[1..]));
      ValOkSplit(b, Leaves(tys[0]), LeavesAll(tys[1..]));
      var head :- SemEq(env, mem, tys[0], a[..n], b[..n]);
      var tail :- SemEqAll(env, mem, d, tys[1..], a[n..], b[n..]);
      Some(head && tail)
  }

  /** Equality of the first `n` elements behind two many-item pointers. */
  function SemEqUpTo(env: Env, mem: Mem, e: Ty, p: Addr, q: Addr, n: nat): Option<bool>
    requires MemOk(env, mem)
    decreases Depth(e), 2, n
  {
    if n == 0 then Some(true)
    else
      var prev :- SemEqUpTo(env, mem, e, p, q, n - 1);
      var x :- Load(env, mem, Item(p, e, n - 1), e);
      var y :- Load(env, mem, Item(q, e, n - 1), e);
      var here :- SemEq(env, mem, e, x, y);
      Some(prev && here)
  }

  /** The address of element `i` behind a many-item pointer. */
  function Item(p: Addr, e: Ty, i: nat): Addr {
    if p.At? then At(p.root, p.off + i * Size(e)) else Null
  }

  lemma ValOkSplit(v: Val, l1: seq<Leaf>, l2: seq<Leaf>)
    requires ValOk(v, l1 + l2)
    ensures ValOk(v[..|l1|], l1) && ValOk(v[|l1|..], l2)
  {
    assert forall i :: 0 <= i < |l2| ==> (l1 + l2)[|l1| + i] == l2[i];
  }

  /** The cells of an aggregate are the cells of its members, in order. */
  lemma LeavesOfKids(ty: Ty)
    requires IsAggregate(ty)
    ensures Leaves(ty) == LeavesAll(Kids(ty))
  {
    if ty.Array? {
      RepeatIsAll(ty.elem, ty.len);
    } else if ty.Slice? {
      var kids := Kids(ty);
      assert kids[1..] == [USIZE] && kids[1..][1..] == [];
      assert LeavesAll(kids[1..]) == [LInt(PTR_BITS, false)];
    }
  }

  lemma {:induction false} RepeatIsAll(e: Ty, n: nat)
    ensures Repeat(Leaves(e), n) == LeavesAll(seq(n, _ => e))
  {
    if n > 0 {
      var kids := seq(n, _ => e);
      assert kids[1..] == seq(n - 1, _ => e);
      RepeatIsAll(e, n - 1);
    }
  }

  function BinSem(env: Env, mem: Mem, op: BinOp, ty: Ty, a: Val, b: Val): (v: Option<Val>)
    requires MemOk(env, mem) && BinOpOk(op, ty)
    requires ValOk(a, Leaves(ty)) && ValOk(b, Leaves(ty))
  {
    if ty.Float? then
      if a[0].SFloat? && b[0].SFloat? then Some([SBool(FloatCompare(op, ty.double, a[0], b[0]))]) else None
    else if op.IsEquality() then
      var eq :- SemEq(env, mem, ty, a, b);
      Some([SBool(if op.Eq? then eq else !eq)])
    else if ty.Bool? then
      if a[0].SBool? && b[0].SBool? then Some([SBool(BoolOp(op, a[0].b, b[0].b))]) else None
    else if !(a[0].SInt? && b[0].SInt?) then None
    else if op.IsComparison() then Some([SBool(Compare(op, a[0].n, b[0].n))])
    else
      var n :- IntOp(op, ty.bits, ty.signed, a[0].n, b[0].n);
      Some([SInt(n)])
  }

  datatype UnOp = Neg | Not | BitNot

  predicate UnOpOk(op: UnOp, ty: Ty) {
    if op.Not? then ty.Bool? else if op.Neg? then ty.Int? || ty.Float? else ty.Int?
  }

  function UnSem(op: UnOp, ty: Ty, a: Val): (v: Option<Val>)
    requires UnOpOk(op, ty) && ValOk(a, Leaves(ty))
    ensures v.Some? ==> ValOk(v.value, Leaves(ty))
  {
    match op
    case Not => if a[0].SBool? then Some([SBool(!a[0].b)]) else None
    case Neg =>
      if ty.Float? then if a[0].SFloat? then Some([SFloat(FloatNeg(ty.double, a[0].f))]) else None
      else if a[0].SInt? then Some([SInt(Wrap(-a[0].n, ty.bits, ty.signed))]) else None
    case BitNot => if a[0].SInt? then Some([SInt(Wrap(-a[0].n - 1, ty.bits, ty.signed))]) else None
  }

  /** The conversions of the model: between integers and truth values, and from pointer to pointer. */
  predicate CastOk(src: Ty, dst: Ty) {
    || src == dst
    || (src.Int? && (dst.Int? || dst.Bool?))
    || (src.Bool? && dst.Int?)
    || (src.IsPointer() && dst.IsPointer())
  }

  function CastSem(src: Ty, dst: Ty, a: Val): (v: Option<Val>)
    requires CastOk(src, dst) && ValOk(a, Leaves(src))
    ensures v.Some? ==> ValOk(v.value, Leaves(dst))
  {
    if src == dst || src.IsPointer() then Some(a)
    else if src.Bool? then
      if a[0].SBool? then Some([SInt(Wrap(if a[0].b then 1 else 0, dst.bits, dst.signed))]) else None
    else if !a[0].SInt? then None
    else if dst.Bool? then Some([SBool(a[0].n != 0)])
    else Some([SInt(Wrap(a[0].n, dst.bits, dst.signed))])
  }

  // ----- rvalues, statements, terminators -----

  datatype Rvalue =
    | Use(o: Operand)
    | Binary(op: BinOp, lhs: Operand, rhs: Operand)
    | Unary(uop: UnOp, o: Operand)
    | Ref(place: Place)
    | Read(o: Operand)
    | Cast(o: Operand, target: Ty)
    | Aggregate(operands: seq<Operand>)

  /** The type both operands of a binary operator are read at. */
  function BinTy(env: Env, lhs: Operand, rhs: Operand): Option<Ty> {
    if lhs.Copy? then OperandTy(env, lhs) else OperandTy(env, rhs)
  }

  predicate RvalueOk(env: Env, rv: Rvalue, ty: Ty) {
    match rv
    case Use(o) => OperandOk(env, o, ty) || (ty.Int? && OperandTy(env, o).Some? && OperandTy(env, o).value.Int?)
    case Binary(op, l, r) =>
      var t := BinTy(env, l, r);
      && t.Some?
      && OperandOk(env, l, t.value)
      && OperandOk(env, r, t.value)
      && BinOpOk(op, t.value)
      && ty == BinResultTy(op, t.value)
    case Unary(op, o) => UnOpOk(op, ty) && OperandOk(env, o, ty)
    case Ref(p) => PlaceTy(env, p).Some? && ty.IsPointer()
    case Read(o) => OperandTy(env, o).Some? && OperandTy(env, o).value.IsPointer()
    case Cast(o, target) =>
      && ty == target
      && OperandTy(env, o).Some?
      && var src := OperandTy(env, o).value;
         CastOk(src, target) || (src.Array? && target.IsPointer())
    case Aggregate(os) =>
      && IsAggregate(ty)
      && |os| == |Kids(ty)|
      && forall i :: 0 <= i < |os| ==> OperandOk(env, os[i], Kids(ty)[i])
  }

  function EvalAll(env: Env, mem: Mem, os: seq<Operand>, tys: seq<Ty>): (v: Option<Val>)
    requires MemOk(env, mem) && |os| == |tys|
    requires forall i :: 0 <= i < |os| ==> OperandOk(env, os[i], tys[i])
    ensures v.Some? ==> ValOk(v.value, LeavesAll(tys))
  {
    if os == [] then Some([])
    else
      var head :- EvalOperand(env, mem, os[0], tys[0]);
      var tail :- EvalAll(env, mem, os[1..], tys[1..]);
      Some(head + tail)
  }

  function EvalRvalue(env: Env, mem: Mem, rv: Rvalue, ty: Ty): (v: Option<Val>)
    requires MemOk(env, mem) && RvalueOk(env, rv, ty)
  {
    match rv
    case Use(o) =>
      if OperandOk(env, o, ty) then EvalOperand(env, mem, o, ty)
      else
        var src := OperandTy(env, o).value;
        var x :- EvalOperand(env, mem, o, src);
        CastSem(src, ty, x)
    case Binary(op, l, r) =>
      var t := BinTy(env, l, r).value;
      var x :- EvalOperand(env, mem, l, t);
      var y :- EvalOperand(env, mem, r, t);
      BinSem(env, mem, op, t, x, y)
    case Unary(op, o) =>
      var x :- EvalOperand(env, mem, o, ty);
      UnSem(op, ty, x)
    case Ref(p) =>
      var a :- PlaceAddr(env, mem, p);
      Some([SPtr(a)])
    case Read(o) =>
      var x :- EvalOperand(env, mem, o, OperandTy(env, o).value);
      if x[0].SPtr? then Load(env, mem, x[0].a, ty) else None
    case Cast(o, target) =>
      var src := OperandTy(env, o).value;
      if CastOk(src, target) then
        var x :- EvalOperand(env, mem, o, src);
        CastSem(src, target, x)
      else
        var a :- PlaceAddr(env, mem, o.place);
        Some([SPtr(a)])
    case Aggregate(os) => EvalAll(env, mem, os, Kids(ty))
  }

  /** Every rvalue yields a value of the type it is assigned at. */
  lemma EvalRvalueOk(env: Env, mem: Mem, rv: Rvalue, ty: Ty)
    requires MemOk(env, mem) && RvalueOk(env, rv, ty)
    ensures var v := EvalRvalue(env, mem, rv, ty); v.Some? ==> ValOk(v.value, Leaves(ty))
  {
    match rv
    case Binary(op, l, r) =>
      var t := BinTy(env, l, r).value;
      var x, y := EvalOperand(env, mem, l, t), EvalOperand(env, mem, r, t);
      if x.Some? && y.Some? {
        BinSemOk(env, mem, op, t, x.value, y.value);
      }
    case Aggregate(os) =>
      LeavesOfKids(ty);
    case _ =>
  }

  lemma BinSemOk(env: Env, mem: Mem, op: BinOp, ty: Ty, a: Val, b: Val)
    requires MemOk(env, mem) && BinOpOk(op, ty)
    requires ValOk(a, Leaves(ty)) && ValOk(b, Leaves(ty))
    ensures var v := BinSem(env, mem, op, ty, a, b);
            v.Some? ==> ValOk(v.value, Leaves(BinResultTy(op, ty)))
  {
    if ty.Int? && !op.IsComparison() && a[0].SInt? && b[0].SInt? {
      assert ScalarOk(a[0], Leaves(ty)[0]) && ScalarOk(b[0], Leaves(ty)[0]);
      IntOpInRange(op, ty.bits, ty.signed, a[0].n, b[0].n);
    }
  }

  lemma IntOpInRange(op: BinOp, w: Width, signed: bool, x: int, y: int)
    requires !op.IsComparison() && !op.LogicalAnd? && !op.LogicalOr?
    requires InRange(x, w, signed) && InRange(y, w, signed)
    ensures var r := IntOp(op, w, signed, x, y); r.Some? ==> InRange(r.value, w, signed)
  {
    if op.Mod? && y != 0 {
      TruncRemBound(x, y);
    } else if op.Shr? && 0 <= y {
      ShrBound(x, Pow2(y));
    }
  }

  lemma TruncRemBound(x: int, y: int)
    requires y != 0
    ensures Abs(TruncRem(x, y)) < Abs(y)
    ensures x >= 0 ==> TruncRem(x, y) >= 0
    ensures x < 0 ==> TruncRem(x, y) <= 0
  {
    var a: int, b: int := Abs(x), Abs(y);
    var q, r := a / b, a % b;
    assert a == b * q + r && 0 <= r < b;
    SignedProducts(b, q);
    var p := y * TruncDiv(x, y);
    assert p == if x < 0 then -(b * q) else b * q;
    assert TruncRem(x, y) == x - p;
  }

  lemma SignedProducts(b: int, q: int)
    ensures (-b) * q == -(b * q) && b * (-q) == -(b * q) && (-b) * (-q) == b * q
  {
  }

  lemma ShrBound(x: int, m: int)
    requires m >= 1
    ensures x >= 0 ==> 0 <= x / m <= x
    ensures x < 0 ==> x <= x / m < 0
  {
    var q := x / m;
    assert x == m * q + x % m && 0 <= x % m < m;
    if q >= 1 {
      ScaleUp(m, q);
    } else if q <= -1 {
      ScaleUp(m, -q - 1);
      assert m * (-q - 1) == -(m * q) - m;
    }
  }

  lemma ScaleUp(m: int, q: int)
    requires m >= 1 && q >= 0
    ensures m * q >= q
  {
    assert (m - 1) * q >= 0;
  }

  datatype Stmt = Assign(place: Place, rv: Rvalue) | Discard(o: Operand) | Nop

  predicate StmtOk(env: Env, s: Stmt) {
    match s
    case Assign(p, rv) =>
      PlaceTy(env, p).Some? && (PlaceTy(env, p).value.Void? || RvalueOk(env, rv, PlaceTy(env, p).value))
    case Discard(o) => o.Copy? ==> PlaceTy(env, o.place).Some?
    case Nop => true
  }

  datatype Terminator =
    | Goto(target: nat)
    | SwitchInt(disc: Place, cases: seq<(nat, nat)>, otherwise: nat)
    | Return(o: Operand)
    | ReturnVoid
    | Unreachable

  datatype Block = Block(stmts: seq<Stmt>, term: Terminator)

  datatype Func = Func(env: Env, params: seq<nat>, retTy: Ty, blocks: seq<Block>)

  predicate JumpOk(f: Func, b: nat) {
    0 < b < |f.blocks|
  }

  predicate TermOk(f: Func, t: Terminator) {
    match t
    case Goto(b) => JumpOk(f, b)
    case SwitchInt(d, cases, otherwise) =>
      && PlaceTy(f.env, d).Some?
      && (PlaceTy(f.env, d).value.Int? || PlaceTy(f.env, d).value.Bool?)
      && JumpOk(f, otherwise)
      && forall k :: 0 <= k < |cases| ==> JumpOk(f, cases[k].1)
    case Return(o) => OperandOk(f.env, o, f.retTy)
    case ReturnVoid => f.retTy.Void?
    case Unreachable => true
  }

  /** A well-typed function: block 0 is the entry and no jump goes there. */
  predicate FuncOk(f: Func) {
    && EnvOk(f.env)
    && |f.blocks| > 0
    && (forall k :: 0 <= k < |f.params| ==> f.params[k] < f.env.locals && !f.env.roots[f.params[k]].Void?)
    && forall b :: 0 <= b < |f.blocks| ==>
         (forall k :: 0 <= k < |f.blocks[b].stmts| ==> StmtOk(f.env, f.blocks[b].stmts[k]))
         && TermOk(f, f.blocks[b].term)
  }

  function ExecStmt(env: Env, mem: Mem, s: Stmt): (m: Option<Mem>)
    requires MemOk(env, mem) && StmtOk(env, s)
    ensures m.Some? ==> MemOk(env, m.value)
  {
    match s
    case Nop => Some(mem)
    case Discard(o) =>
      if o.Copy? && !PlaceTy(env, o.place).value.Void? then
        var _ :- EvalOperand(env, mem, o, PlaceTy(env, o.place).value);
        Some(mem)
      else Some(mem)
    case Assign(p, rv) =>
      var ty := PlaceTy(env, p).value;
      if ty.Void? then Some(mem)
      else
        var v :- EvalRvalue(env, mem, rv, ty);
        var a :- PlaceAddr(env, mem, p);
        EvalRvalueOk(env, mem, rv, ty);
        Store(env, mem, a, ty, v)
  }

  function ExecStmts(env: Env, mem: Mem, ss: seq<Stmt>): (m: Option<Mem>)
    requires MemOk(env, mem) && forall k :: 0 <= k < |ss| ==> StmtOk(env, ss[k])
    ensures m.Some? ==> MemOk(env, m.value)
    decreases |ss|
  {
    if ss == [] then Some(mem)
    else
      var m :- ExecStmt(env, mem, ss[0]);
      ExecStmts(env, m, ss[1..])
  }

  /** The value a case label stands for, read at the type of the discriminant. */
  predicate CaseMatches(ty: Ty, v: nat, disc: Scalar)
    requires ty.Int? || ty.Bool?
  {
    if ty.Int? then disc == SInt(Wrap(v, ty.bits, ty.signed)) else disc == SBool(v % 2 == 1)
  }

  function SwitchTarget(ty: Ty, disc: Scalar, cases: seq<(nat, nat)>, otherwise: nat): nat
    requires ty.Int? || ty.Bool?
  {
    if cases == [] then otherwise
    else if CaseMatches(ty, cases[0].0, disc) then cases[0].1
    else SwitchTarget(ty, disc, cases[1..], otherwise)
  }

  datatype State = AtBlock(block: nat, mem: Mem) | Done(ret: Val, mem: Mem)

  predicate StateOk(f: Func, s: State) {
    MemOk(f.env, s.mem) && (s.AtBlock? ==> s.block < |f.blocks|)
  }

  function ExecTerm(f: Func, mem: Mem, t: Terminator): (s: Option<State>)
    requires FuncOk(f) && MemOk(f.env, mem) && TermOk(f, t)
  {
    match t
    case Goto(b) => Some(AtBlock(b, mem))
    case SwitchInt(d, cases, otherwise) =>
      var ty := PlaceTy(f.env, d).value;
      var a :- PlaceAddr(f.env, mem, d);
      var v :- Load(f.env, mem, a, ty);
      if v[0].SUndef? then None
      else Some(AtBlock(SwitchTarget(ty, v[0], cases, otherwise), mem))
    case Return(o) =>
      var v :- EvalOperand(f.env, mem, o, f.retTy);
      Some(Done(v, mem))
    case ReturnVoid => Some(Done([], mem))
    case Unreachable => None
  }

  /** One whole block: its statements, then its terminator. */
  function Step(f: Func, s: State): Option<State>
    requires FuncOk(f) && StateOk(f, s)
  {
    if s.Done? then None
    else
      var m :- ExecStmts(f.env, s.mem, f.blocks[s.block].stmts);
      ExecTerm(f, m, f.blocks[s.block].term)
  }
}
