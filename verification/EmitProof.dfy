/**
 Emitted code for places, operands, rvalues and statements does what the source means.
 */
module EmitProof {
  import opened Wrappers
  import opened Arith
  import opened Floats
  import opened Mir
  import opened BlockGraph
  import opened Emit
  import opened Encode
  import opened EqProof
  import opened EmitFn
  import opened IrArith

  // ----- places -----

  /** A pointer loaded from memory. */
  lemma LoadPtrOk(c: Code, t0: TState, e: Em, p: Opnd, env: Env, mem: Mem, a: Addr, ty: Ty, t: TState)
    returns (u: TState)
    requires Ready(e) && Within(Def(e, LoadCells(e.next, p, 1)).0, c) && Sim(c, t0, e, t)
    requires MemRel(env, mem, t.mem, c.scratch) && ty.IsPointer() && LoadPtr(env, mem, a, ty).Some?
    requires Known(t, p, [CPtr(a)], e.next)
    ensures Sim(c, t0, Def(e, LoadCells(e.next, p, 1)).0, u) && Keeps(t, u, e.next)
    ensures Known(u, Reg(e.next), [CPtr(LoadPtr(env, mem, a, ty).value)], e.next + 1)
  {
    hide MemRel, Within, Def, Sim, Keeps, Known, Accessible;
    MemRelOk(env, mem, t.mem, c.scratch);
    u := LoadOk(c, t0, e, p, env, mem, a, ty, t);
    var v := Load(env, mem, a, ty).value;
    assert Enc(v, Leaves(ty)) == [CPtr(v[0].a)];
  }

  /** The index local read from memory. */
  lemma LoadIndexOk(c: Code, t0: TState, e: Em, env: Env, mem: Mem, l: nat, t: TState) returns (u: TState)
    requires Ready(e) && Within(Def(e, LoadCells(e.next, RootPtr(l), 1)).0, c) && Sim(c, t0, e, t)
    requires MemRel(env, mem, t.mem, c.scratch) && l < |env.roots| && env.roots[l] == USIZE
    requires IndexValue(env, mem, l).Some?
    ensures Sim(c, t0, Def(e, LoadCells(e.next, RootPtr(l), 1)).0, u) && Keeps(t, u, e.next)
    ensures Known(u, Reg(e.next), [Bits(PTR_BITS, IndexValue(env, mem, l).value)], e.next + 1)
  {
    assert ValOk(mem[l], Leaves(USIZE));
    assert mem[l][0..1] == mem[l];
    assert Load(env, mem, At(l, 0), USIZE) == Some(mem[l]);
    var i := IndexValue(env, mem, l).value;
    assert Enc(mem[l], Leaves(USIZE)) == [Bits(PTR_BITS, i)] by {
      UnsignedPattern(i, PTR_BITS);
    }
    hide MemRel, Within, Def, Sim, Keeps;
    u := LoadOk(c, t0, e, RootPtr(l), env, mem, At(l, 0), USIZE, t);
  }

  lemma StepOk(c: Code, t0: TState, e: Em, p: Opnd, env: Env, mem: Mem, a: Addr, ty: Ty, elem: Elem, t: TState)
    returns (u: TState)
    requires Ready(e) && MemRel(env, mem, t.mem, c.scratch) && StepTy(env, ty, elem).Some? && Sim(c, t0, e, t)
    requires Within(EmitStep(env, e, p, ty, elem).0, c) && Known(t, p, [CPtr(a)], e.next)
    requires StepAddr(env, mem, a, ty, elem).Some?
    ensures var r := EmitStep(env, e, p, ty, elem);
            Sim(c, t0, r.0, u) && Keeps(t, u, e.next)
            && Known(u, r.1, [CPtr(StepAddr(env, mem, a, ty, elem).value)], r.0.next)
  {
    hide MemRel, Within, Def, Sim, Keeps, Known, MemOk, Load, KidOff, Grows, Ready, Size, IndexValue;
    MemRelOk(env, mem, t.mem, c.scratch);
    match elem
    case Field(i) =>
      u := GepConstOk(c, t0, e, p, KidOff(ty, i), a, t);
    case Deref =>
      u := LoadPtrOk(c, t0, e, p, env, mem, a, ty, t);
    case Index(l) =>
      if ty.Array? {
        var e1 := Def(e, LoadCells(e.next, RootPtr(l), 1)).0;
        WithinTrans(e1, Def(e1, GepScaled(e1.next, p, Reg(e.next), Size(ty.elem))).0, c);
        var s := LoadIndexOk(c, t0, e, env, mem, l, t);
        KnownKept(t, s, e.next, p, [CPtr(a)], e1.next);
        u := GepScaledOk(c, t0, e1, p, Reg(e.next), Size(ty.elem), a, IndexValue(env, mem, l).value, s);
        KeepsTrans(t, s, u, e.next, e1.next);
      } else {
        var base := LoadPtr(env, mem, a, ty).value;
        var e1 := Def(e, LoadCells(e.next, p, 1)).0;
        var e2 := Def(e1, LoadCells(e1.next, RootPtr(l), 1)).0;
        WithinTrans(e2, Def(e2, GepScaled(e2.next, Reg(e.next), Reg(e1.next), Size(ty.item))).0, c);
        WithinTrans(e1, e2, c);
        var s1 := LoadPtrOk(c, t0, e, p, env, mem, a, ty, t);
        KeepsMem(t, s1, e.next);
        var s2 := LoadIndexOk(c, t0, e1, env, mem, l, s1);
        KeepsTrans(t, s1, s2, e.next, e1.next);
        KnownKept(s1, s2, e1.next, Reg(e.next), [CPtr(base)], e2.next);
        u := GepScaledOk(c, t0, e2, Reg(e.next), Reg(e1.next), Size(ty.item), base, IndexValue(env, mem, l).value, s2);
        KeepsTrans(t, s2, u, e.next, e2.next);
      }
  }

  lemma {:induction false} ProjOk(c: Code, t0: TState, e: Em, p: Opnd, env: Env, mem: Mem, a: Addr, ty: Ty,
      proj: seq<Elem>, t: TState)
    returns (u: TState)
    requires Ready(e) && MemRel(env, mem, t.mem, c.scratch) && TyFrom(env, ty, proj).Some? && Sim(c, t0, e, t)
    requires Within(EmitProj(env, e, p, ty, proj).0, c) && Known(t, p, [CPtr(a)], e.next)
    requires AddrFrom(env, mem, a, ty, proj).Some?
    ensures var r := EmitProj(env, e, p, ty, proj);
            Sim(c, t0, r.0, u) && Keeps(t, u, e.next)
            && Known(u, r.1, [CPtr(AddrFrom(env, mem, a, ty, proj).value)], r.0.next)
    decreases |proj|
  {
    hide MemRel, Within, Def, Sim, Known, MemOk, StepAddr, StepTy, EmitStep, Grows, Ready;
    MemRelOk(env, mem, t.mem, c.scratch);
    SimRunning(c, t0, e, t);
    if proj == [] {
      u := t;
    } else {
      hide Keeps;
      var (e1, q) := EmitStep(env, e, p, ty, proj[0]);
      var next := StepAddr(env, mem, a, ty, proj[0]).value;
      var nextTy := StepTy(env, ty, proj[0]).value;
      WithinTrans(e1, EmitProj(env, e1, q, nextTy, proj[1..]).0, c);
      GrowsNext(e, e1);
      var s := StepOk(c, t0, e, p, env, mem, a, ty, proj[0], t);
      KeepsMem(t, s, e.next);
      u := ProjOk(c, t0, e1, q, env, mem, next, nextTy, proj[1..], s);
      KeepsTrans(t, s, u, e.next, e1.next);
    }
  }

  /** The emitted address of a place is the address of the place. */
  lemma PlaceOk(c: Code, t0: TState, e: Em, env: Env, mem: Mem, p: Place, t: TState) returns (u: TState)
    requires Ready(e) && MemRel(env, mem, t.mem, c.scratch) && PlaceTy(env, p).Some? && Sim(c, t0, e, t)
    requires Within(EmitPlace(env, e, p).0, c) && PlaceAddr(env, mem, p).Some?
    ensures var r := EmitPlace(env, e, p);
            Sim(c, t0, r.0, u) && Keeps(t, u, e.next) && Known(u, r.1, [CPtr(PlaceAddr(env, mem, p).value)], r.0.next)
  {
    SimRunning(c, t0, e, t);
    KnownLit(t, RootPtr(p.root), e.next);
    hide MemRel, Within, Sim, Known, MemOk, TyFrom, AddrFrom, EmitProj, Grows, Ready;
    u := ProjOk(c, t0, e, RootPtr(p.root), env, mem, At(p.root, 0), env.roots[p.root], p.proj, t);
  }

  // ----- operands -----

  lemma LoadPlaceOk(c: Code, t0: TState, e: Em, env: Env, mem: Mem, p: Place, ty: Ty, v: Val, t: TState)
    returns (u: TState)
    requires Ready(e) && MemRel(env, mem, t.mem, c.scratch) && PlaceTy(env, p) == Some(ty) && Sim(c, t0, e, t)
    requires Within(EmitLoad(env, e, p).0, c) && ValOk(v, Leaves(ty))
    requires PlaceAddr(env, mem, p).Some? && Load(env, mem, PlaceAddr(env, mem, p).value, ty) == Some(v)
    ensures var r := EmitLoad(env, e, p);
            Sim(c, t0, r.0, u) && Keeps(t, u, e.next) && Known(u, r.1, Enc(v, Leaves(ty)), r.0.next)
  {
    hide MemRel, Within, Sim, Known, Keeps, MemOk, ValOk, Load, PlaceAddr, EmitPlace, Grows, Ready, Size, Leaves, Def;
    MemRelOk(env, mem, t.mem, c.scratch);
    var (e1, a) := EmitPlace(env, e, p);
    WithinTrans(e1, Def(e1, LoadCells(e1.next, a, Size(ty))).0, c);
    GrowsNext(e, e1);
    var s := PlaceOk(c, t0, e, env, mem, p, t);
    KeepsMem(t, s, e.next);
    u := LoadOk(c, t0, e1, a, env, mem, PlaceAddr(env, mem, p).value, ty, s);
    KeepsTrans(t, s, u, e.next, e1.next);
  }

  /** The emitted value of an operand is the encoding of its value. */
  lemma OperandValue(c: Code, t0: TState, e: Em, env: Env, mem: Mem, o: Operand, ty: Ty, v: Val, t: TState)
    returns (u: TState)
    requires Ready(e) && MemRel(env, mem, t.mem, c.scratch) && OperandOk(env, o, ty) && Sim(c, t0, e, t)
    requires Within(EmitOperand(env, e, o, ty).0, c) && EvalOperand(env, mem, o, ty) == Some(v) && ValOk(v, Leaves(ty))
    ensures var r := EmitOperand(env, e, o, ty);
            Sim(c, t0, r.0, u) && Keeps(t, u, e.next) && Known(u, r.1, Enc(v, Leaves(ty)), r.0.next)
  {
    SimRunning(c, t0, e, t);
    MemRelOk(env, mem, t.mem, c.scratch);
    if o.Copy? {
      hide *;
      CopyParts(env, e, mem, o, ty);
      u := LoadPlaceOk(c, t0, e, env, mem, o.place, ty, v, t);
    } else {
      hide MemRel, Within, Sim, MemOk, Grows, Ready;
      assert Enc(v, Leaves(ty)) == EmitOperand(env, e, o, ty).1.v;
      u := t;
    }
  }

  lemma CopyParts(env: Env, e: Em, mem: Mem, o: Operand, ty: Ty)
    requires Ready(e) && MemOk(env, mem) && o.Copy? && OperandOk(env, o, ty) && EvalOperand(env, mem, o, ty).Some?
    ensures PlaceTy(env, o.place) == Some(ty) && EmitOperand(env, e, o, ty) == EmitLoad(env, e, o.place)
    ensures PlaceAddr(env, mem, o.place).Some?
    ensures EvalOperand(env, mem, o, ty) == Load(env, mem, PlaceAddr(env, mem, o.place).value, ty)
  {
    hide MemOk, Load, PlaceAddr, EmitLoad;
  }

  // ----- operators -----

  lemma EncInt(n: int, w: Width, s: bool)
    ensures Enc([SInt(n)], [LInt(w, s)]) == [Bits(w, n % Pow2(w))] && 0 <= n % Pow2(w) < Pow2(w)
  {
  }

  lemma EncBool(b: bool)
    ensures Enc([SBool(b)], [LBool]) == BoolCell(b)
  {
  }

  lemma NotBoolOk(c: Code, t0: TState, e: Em, v: Opnd, b: bool, t: TState) returns (u: TState)
    requires Ready(e) && Within(EmitNot(e, v).0, c) && Sim(c, t0, e, t) && Known(t, v, BoolCell(b), e.next)
    ensures Sim(c, t0, EmitNot(e, v).0, u) && Keeps(t, u, e.next)
    ensures Known(u, EmitNot(e, v).1, BoolCell(!b), EmitNot(e, v).0.next)
  {
    hide Within, Sim, Keeps;
    BoolBinOk(BitXor, b, true);
    assert EmitNot(e, v) == Def(e, Bin(e.next, IXor, v, Lit(BoolCell(true))));
    u := BinOk(c, t0, e, IXor, v, Lit(BoolCell(true)), 1, if b then 1 else 0, 1, t);
  }

  /** Integer operands: one instruction, chosen by operator and signedness. */
  lemma IntBinOk(c: Code, t0: TState, e: Em, op: BinOp, ty: Ty, a: Opnd, b: Opnd, x: int, y: int, v: Val, env: Env,
      mem: Mem, t: TState)
    returns (u: TState)
    requires Ready(e) && ty.Int? && BinOpOk(op, ty) && Within(EmitBinOp(e, op, ty, a, b).0, c) && Sim(c, t0, e, t)
    requires InRange(x, ty.bits, ty.signed) && InRange(y, ty.bits, ty.signed)
    requires Known(t, a, [Bits(ty.bits, x % Pow2(ty.bits))], e.next)
    requires Known(t, b, [Bits(ty.bits, y % Pow2(ty.bits))], e.next)
    requires if op.IsComparison() then v == [SBool(Compare(op, x, y))]
             else IntOp(op, ty.bits, ty.signed, x, y).Some? && v == [SInt(IntOp(op, ty.bits, ty.signed, x, y).value)]
    requires |v| == |Leaves(BinResultTy(op, ty))|
    ensures var r := EmitBinOp(e, op, ty, a, b);
            Sim(c, t0, r.0, u) && Keeps(t, u, e.next) && Known(u, r.1, Enc(v, Leaves(BinResultTy(op, ty))), r.0.next)
  {
    hide Within, Sim, Keeps, Known, EvalIr, EvalPred, IntOp, Compare, InRange, IrBin, IrPred, Ready, Grows, Def, EmitEq;
    var w, s := ty.bits, ty.signed;
    if op.IsComparison() {
      IrPredOk(op, w, s, x, y);
      EncBool(Compare(op, x, y));
      u := IcmpOk(c, t0, e, IrPred(op, s), a, b, w, x % Pow2(w), y % Pow2(w), t);
    } else {
      IrBinOk(op, w, s, x, y);
      EncInt(v[0].n, w, s);
      u := BinOk(c, t0, e, IrBin(op, s), a, b, w, x % Pow2(w), y % Pow2(w), t);
    }
  }

  lemma BoolBinRvOk(c: Code, t0: TState, e: Em, op: BinOp, a: Opnd, b: Opnd, x: bool, y: bool, t: TState)
    returns (u: TState)
    requires Ready(e) && BinOpOk(op, Bool) && Within(EmitBinOp(e, op, Bool, a, b).0, c) && Sim(c, t0, e, t)
    requires Known(t, a, BoolCell(x), e.next) && Known(t, b, BoolCell(y), e.next)
    ensures var r := EmitBinOp(e, op, Bool, a, b);
            Sim(c, t0, r.0, u) && Keeps(t, u, e.next) && Known(u, r.1, BoolCell(BoolOp(op, x, y)), r.0.next)
  {
    hide Within, Sim, Keeps, Known, EvalIr, EvalPred, IrBin, IrPred, Ready, Grows, Def, EmitEq, BoolOp;
    var m, n := if x then 1 else 0, if y then 1 else 0;
    if op.IsComparison() {
      BoolPredOk(op, x, y);
      u := IcmpOk(c, t0, e, IrPred(op, false), a, b, 1, m, n, t);
    } else {
      BoolBinOk(op, x, y);
      u := BinOk(c, t0, e, IrBin(op, false), a, b, 1, m, n, t);
    }
  }

  lemma PtrBinOk(c: Code, t0: TState, e: Em, op: BinOp, ty: Ty, a: Opnd, b: Opnd, x: Addr, y: Addr, t: TState)
    returns (u: TState)
    requires Ready(e) && ty.IsPointer() && op.IsEquality() && Within(EmitBinOp(e, op, ty, a, b).0, c)
    requires Sim(c, t0, e, t)
    requires Known(t, a, [CPtr(x)], e.next) && Known(t, b, [CPtr(y)], e.next)
    ensures var r := EmitBinOp(e, op, ty, a, b);
            Sim(c, t0, r.0, u) && Keeps(t, u, e.next) && Known(u, r.1, BoolCell((x == y) == op.Eq?), r.0.next)
  {
    hide Within, Sim, Keeps, Known, Ready, Grows, Def, EmitEq;
    u := IcmpPtrOk(c, t0, e, if op.Eq? then EQ else NE, a, b, x, y, t);
  }

  lemma FloatBinSim(c: Code, t0: TState, e: Em, env: Env, mem: Mem, op: BinOp, ty: Ty, a: Opnd, b: Opnd, x: Val, y: Val,
      v: Val, t: TState)
    returns (u: TState)
    requires Ready(e) && BinOpOk(op, ty) && ty.Float? && Within(EmitBinOp(e, op, ty, a, b).0, c) && Sim(c, t0, e, t)
    requires MemOk(env, mem) && ValOk(x, Leaves(ty)) && ValOk(y, Leaves(ty))
    requires Known(t, a, Enc(x, Leaves(ty)), e.next) && Known(t, b, Enc(y, Leaves(ty)), e.next)
    requires BinSem(env, mem, op, ty, x, y) == Some(v) && ValOk(v, Leaves(BinResultTy(op, ty)))
    ensures var r := EmitBinOp(e, op, ty, a, b);
            Sim(c, t0, r.0, u) && Keeps(t, u, e.next) && Known(u, r.1, Enc(v, Leaves(BinResultTy(op, ty))), r.0.next)
  {
    hide *;
    FloatBinMeans(env, mem, op, ty, x, y, v);
    FloatBinCode(e, op, ty, a, b);
    u := FcmpOk(c, t0, e, IrFPred(op), a, b, ty.double, x[0].f, y[0].f, t);
  }

  lemma FloatBinCode(e: Em, op: BinOp, ty: Ty, a: Opnd, b: Opnd)
    requires Ready(e) && BinOpOk(op, ty) && ty.Float?
    ensures op.IsComparison() && EmitBinOp(e, op, ty, a, b) == Def(e, Fcmp(e.next, IrFPred(op), a, b))
    ensures EmitBinOp(e, op, ty, a, b).1 == Reg(e.next) && EmitBinOp(e, op, ty, a, b).0.next == e.next + 1
  {
  }

  /** The selected predicate decides the comparison of the numbers. */
  lemma FloatBinMeans(env: Env, mem: Mem, op: BinOp, ty: Ty, x: Val, y: Val, v: Val)
    requires ty.Float? && BinOpOk(op, ty) && MemOk(env, mem) && ValOk(x, Leaves(ty)) && ValOk(y, Leaves(ty))
    requires BinSem(env, mem, op, ty, x, y) == Some(v) && ValOk(v, Leaves(BinResultTy(op, ty)))
    ensures |x| == |y| == |Leaves(ty)| == 1 && |v| == |Leaves(BinResultTy(op, ty))|
    ensures x[0].SFloat? && y[0].SFloat? && IsFloat(ty.double, x[0].f) && IsFloat(ty.double, y[0].f)
    ensures Enc(x, Leaves(ty)) == [Bits(FloatBits(ty.double), x[0].f)]
    ensures Enc(y, Leaves(ty)) == [Bits(FloatBits(ty.double), y[0].f)]
    ensures op.IsComparison()
    ensures Enc(v, Leaves(BinResultTy(op, ty))) == BoolCell(EvalFPred(IrFPred(op), ty.double, x[0].f, y[0].f))
  {
    hide MemOk, IsFloat, IsNaN, Key, SemEq;
    assert ScalarOk(x[0], Leaves(ty)[0]) && ScalarOk(y[0], Leaves(ty)[0]);
    EncBool(FloatCompare(op, ty.double, x[0], y[0]));
  }

  /** `!=` between two floats is the negation of `==`, and agrees with `!=` between arrays that hold one
      of them each, exactly when both are numbers. */
  lemma FloatNeIff(env: Env, mem: Mem, double: bool, x: nat, y: nat)
    requires MemOk(env, mem) && IsFloat(double, x) && IsFloat(double, y)
    ensures var ty, arr := Float(double), Array(Float(double), 1);
            var a, b := [SFloat(x)], [SFloat(y)];
            && ValOk(a, Leaves(ty)) && ValOk(b, Leaves(ty)) && ValOk(a, Leaves(arr)) && ValOk(b, Leaves(arr))
            && BinSem(env, mem, Eq, ty, a, b).Some?
            && var eq := BinSem(env, mem, Eq, ty, a, b).value;
               var ne := BinSem(env, mem, Ne, ty, a, b);
               && (ne == Some([SBool(eq != [SBool(true)])]) <==> !IsNaN(double, x) && !IsNaN(double, y))
               && (ne == BinSem(env, mem, Ne, arr, a, b) <==> !IsNaN(double, x) && !IsNaN(double, y))
  {
    var ty, arr := Float(double), Array(Float(double), 1);
    var a, b := [SFloat(x)], [SFloat(y)];
    hide *;
    OneFloat(double);
    FloatNe(env, mem, double, x, y);
    ArrayNe(env, mem, double, x, y);
  }

  lemma FloatNe(env: Env, mem: Mem, double: bool, x: nat, y: nat)
    requires MemOk(env, mem) && IsFloat(double, x) && IsFloat(double, y)
    ensures var ty := Float(double);
            var a, b := [SFloat(x)], [SFloat(y)];
            && ValOk(a, Leaves(ty)) && ValOk(b, Leaves(ty)) && BinOpOk(Eq, ty) && BinOpOk(Ne, ty)
            && BinSem(env, mem, Eq, ty, a, b) == Some([SBool(FloatEq(double, x, y))])
            && (BinSem(env, mem, Ne, ty, a, b) == Some([SBool(!FloatEq(double, x, y))]) <==>
                !IsNaN(double, x) && !IsNaN(double, y))
  {
    hide MemOk, IsNaN, Key, IsFloat;
  }

  lemma ArrayNe(env: Env, mem: Mem, double: bool, x: nat, y: nat)
    requires MemOk(env, mem) && IsFloat(double, x) && IsFloat(double, y)
    requires Leaves(Array(Float(double), 1)) == [LFloat(double)]
    ensures var arr := Array(Float(double), 1);
            var a, b := [SFloat(x)], [SFloat(y)];
            && ValOk(a, Leaves(arr)) && ValOk(b, Leaves(arr)) && BinOpOk(Ne, arr)
            && BinSem(env, mem, Ne, arr, a, b) == Some([SBool(!FloatEq(double, x, y))])
  {
    var arr := Array(Float(double), 1);
    var a, b := [SFloat(x)], [SFloat(y)];
    hide MemOk, IsNaN, Key, IsFloat, Leaves, FloatEq, SemEq;
    assert SameCell(LFloat(double), a[0], b[0]) == FloatEq(double, x, y);
    PlainEquality(env, mem, arr, a, b);
  }

  lemma OneFloat(double: bool)
    ensures Leaves(Array(Float(double), 1)) == [LFloat(double)]
  {
    var ls := [LFloat(double)];
    assert Repeat(ls, 0) == [];
    assert Repeat(ls, 1) == ls + Repeat(ls, 0);
  }

  /** Arrays and slices: the recursive comparison, negated for inequality. */
  lemma AggBinOk(c: Code, t0: TState, e: Em, env: Env, mem: Mem, op: BinOp, ty: Ty, a: Opnd, b: Opnd, x: Val, y: Val,
      eq: bool, t: TState)
    returns (u: TState)
    requires Ready(e) && (ty.Array? || ty.Slice?) && BinOpOk(op, ty) && Within(EmitBinOp(e, op, ty, a, b).0, c)
    requires Sim(c, t0, e, t)
    requires MemRel(env, mem, t.mem, c.scratch) && ValOk(x, Leaves(ty)) && ValOk(y, Leaves(ty))
    requires Known(t, a, Enc(x, Leaves(ty)), e.next) && Known(t, b, Enc(y, Leaves(ty)), e.next)
    requires SemEq(env, mem, ty, x, y) == Some(eq)
    ensures var r := EmitBinOp(e, op, ty, a, b);
            Sim(c, t0, r.0, u) && Keeps(t, u, e.next) && Known(u, r.1, BoolCell(if op.Eq? then eq else !eq), r.0.next)
  {
    hide Within, Sim, Keeps, Known, Ready, Grows, EmitEq, EmitNot, MemRel, ValOk, SemEq, Enc, Leaves;
    var (e1, q) := EmitEq(e, ty, a, b);
    GrowsNext(e, e1);
    if op.Ne? {
      WithinTrans(e1, EmitNot(e1, q).0, c);
    }
    u := EqOk(c, t0, e, env, mem, ty, a, b, x, y, t);
    if op.Ne? {
      var s := u;
      u := NotBoolOk(c, t0, e1, q, eq, s);
      KeepsTrans(t, s, u, e.next, e1.next);
    }
  }

  /** Any binary operator on two evaluated operands. */
  lemma IntBinSim(c: Code, t0: TState, e: Em, env: Env, mem: Mem, op: BinOp, ty: Ty, a: Opnd, b: Opnd, x: Val, y: Val,
      v: Val, t: TState)
    returns (u: TState)
    requires Ready(e) && BinOpOk(op, ty) && ty.Int? && Within(EmitBinOp(e, op, ty, a, b).0, c) && Sim(c, t0, e, t)
    requires MemRel(env, mem, t.mem, c.scratch) && ValOk(x, Leaves(ty)) && ValOk(y, Leaves(ty))
    requires Known(t, a, Enc(x, Leaves(ty)), e.next) && Known(t, b, Enc(y, Leaves(ty)), e.next)
    requires BinSem(env, mem, op, ty, x, y) == Some(v) && ValOk(v, Leaves(BinResultTy(op, ty)))
    ensures var r := EmitBinOp(e, op, ty, a, b);
            Sim(c, t0, r.0, u) && Keeps(t, u, e.next) && Known(u, r.1, Enc(v, Leaves(BinResultTy(op, ty))), r.0.next)
  {
    MemRelOk(env, mem, t.mem, c.scratch);
    hide *;
    IntBinMeans(env, mem, op, ty, x, y, v);
    u := IntBinOk(c, t0, e, op, ty, a, b, x[0].n, y[0].n, v, env, mem, t);
  }

  lemma IntBinMeans(env: Env, mem: Mem, op: BinOp, ty: Ty, x: Val, y: Val, v: Val)
    requires ty.Int? && BinOpOk(op, ty) && MemOk(env, mem) && ValOk(x, Leaves(ty)) && ValOk(y, Leaves(ty))
    requires BinSem(env, mem, op, ty, x, y) == Some(v) && ValOk(v, Leaves(BinResultTy(op, ty)))
    ensures |x| == |y| == |Leaves(ty)| == 1 && |v| == |Leaves(BinResultTy(op, ty))|
    ensures x[0].SInt? && y[0].SInt?
    ensures InRange(x[0].n, ty.bits, ty.signed) && InRange(y[0].n, ty.bits, ty.signed)
    ensures Enc(x, Leaves(ty)) == [Bits(ty.bits, x[0].n % Pow2(ty.bits))]
    ensures Enc(y, Leaves(ty)) == [Bits(ty.bits, y[0].n % Pow2(ty.bits))]
    ensures if op.IsComparison() then v == [SBool(Compare(op, x[0].n, y[0].n))]
            else !op.LogicalAnd? && !op.LogicalOr?
                 && IntOp(op, ty.bits, ty.signed, x[0].n, y[0].n).Some?
                 && v == [SInt(IntOp(op, ty.bits, ty.signed, x[0].n, y[0].n).value)]
  {
    hide IntOp, SemEqUpTo, SemEqAll, MemOk, InRange, Pow2;
    assert ScalarOk(x[0], Leaves(ty)[0]) && ScalarOk(y[0], Leaves(ty)[0]);
  }

  lemma BoolBinSim(c: Code, t0: TState, e: Em, env: Env, mem: Mem, op: BinOp, ty: Ty, a: Opnd, b: Opnd, x: Val, y: Val,
      v: Val, t: TState)
    returns (u: TState)
    requires Ready(e) && BinOpOk(op, ty) && ty.Bool? && Within(EmitBinOp(e, op, ty, a, b).0, c) && Sim(c, t0, e, t)
    requires MemRel(env, mem, t.mem, c.scratch) && ValOk(x, Leaves(ty)) && ValOk(y, Leaves(ty))
    requires Known(t, a, Enc(x, Leaves(ty)), e.next) && Known(t, b, Enc(y, Leaves(ty)), e.next)
    requires BinSem(env, mem, op, ty, x, y) == Some(v) && ValOk(v, Leaves(BinResultTy(op, ty)))
    ensures var r := EmitBinOp(e, op, ty, a, b);
            Sim(c, t0, r.0, u) && Keeps(t, u, e.next) && Known(u, r.1, Enc(v, Leaves(BinResultTy(op, ty))), r.0.next)
  {
    MemRelOk(env, mem, t.mem, c.scratch);
    hide *;
    BoolBinMeans(env, mem, op, ty, x, y, v);
    u := BoolBinRvOk(c, t0, e, op, a, b, x[0].b, y[0].b, t);
  }

  lemma BoolBinMeans(env: Env, mem: Mem, op: BinOp, ty: Ty, x: Val, y: Val, v: Val)
    requires ty.Bool? && BinOpOk(op, ty) && MemOk(env, mem) && ValOk(x, Leaves(ty)) && ValOk(y, Leaves(ty))
    requires BinSem(env, mem, op, ty, x, y) == Some(v) && ValOk(v, Leaves(BinResultTy(op, ty)))
    ensures |x| == |y| == |Leaves(ty)| == 1 && |v| == |Leaves(BinResultTy(op, ty))| && ty == Bool
    ensures x[0].SBool? && y[0].SBool?
    ensures Enc(x, Leaves(ty)) == BoolCell(x[0].b) && Enc(y, Leaves(ty)) == BoolCell(y[0].b)
    ensures Enc(v, Leaves(BinResultTy(op, ty))) == BoolCell(BoolOp(op, x[0].b, y[0].b))
  {
    hide SemEqUpTo, SemEqAll, MemOk;
    assert ScalarOk(x[0], Leaves(ty)[0]) && ScalarOk(y[0], Leaves(ty)[0]);
    BoolEqIs(op, x[0].b, y[0].b);
    hide BoolOp;
  }

  lemma PtrBinSim(c: Code, t0: TState, e: Em, env: Env, mem: Mem, op: BinOp, ty: Ty, a: Opnd, b: Opnd, x: Val, y: Val,
      v: Val, t: TState)
    returns (u: TState)
    requires Ready(e) && BinOpOk(op, ty) && ty.IsPointer() && Within(EmitBinOp(e, op, ty, a, b).0, c)
    requires Sim(c, t0, e, t)
    requires MemRel(env, mem, t.mem, c.scratch) && ValOk(x, Leaves(ty)) && ValOk(y, Leaves(ty))
    requires Known(t, a, Enc(x, Leaves(ty)), e.next) && Known(t, b, Enc(y, Leaves(ty)), e.next)
    requires BinSem(env, mem, op, ty, x, y) == Some(v) && ValOk(v, Leaves(BinResultTy(op, ty)))
    ensures var r := EmitBinOp(e, op, ty, a, b);
            Sim(c, t0, r.0, u) && Keeps(t, u, e.next) && Known(u, r.1, Enc(v, Leaves(BinResultTy(op, ty))), r.0.next)
  {
    MemRelOk(env, mem, t.mem, c.scratch);
    hide *;
    PtrBinMeans(env, mem, op, ty, x, y, v);
    u := PtrBinOk(c, t0, e, op, ty, a, b, x[0].a, y[0].a, t);
  }

  lemma PtrBinMeans(env: Env, mem: Mem, op: BinOp, ty: Ty, x: Val, y: Val, v: Val)
    requires ty.IsPointer() && BinOpOk(op, ty) && MemOk(env, mem) && ValOk(x, Leaves(ty)) && ValOk(y, Leaves(ty))
    requires BinSem(env, mem, op, ty, x, y) == Some(v) && ValOk(v, Leaves(BinResultTy(op, ty)))
    ensures |x| == |y| == |Leaves(ty)| == 1 && |v| == |Leaves(BinResultTy(op, ty))| && op.IsEquality()
    ensures x[0].SPtr? && y[0].SPtr?
    ensures Enc(x, Leaves(ty)) == [CPtr(x[0].a)] && Enc(y, Leaves(ty)) == [CPtr(y[0].a)]
    ensures Enc(v, Leaves(BinResultTy(op, ty))) == BoolCell((x[0].a == y[0].a) == op.Eq?)
  {
    hide SemEqUpTo, SemEqAll, MemOk;
    assert ScalarOk(x[0], Leaves(ty)[0]) && ScalarOk(y[0], Leaves(ty)[0]);
  }

  lemma AggBinSim(c: Code, t0: TState, e: Em, env: Env, mem: Mem, op: BinOp, ty: Ty, a: Opnd, b: Opnd, x: Val, y: Val,
      v: Val, t: TState)
    returns (u: TState)
    requires Ready(e) && BinOpOk(op, ty) && (ty.Array? || ty.Slice?) && Within(EmitBinOp(e, op, ty, a, b).0, c)
    requires Sim(c, t0, e, t)
    requires MemRel(env, mem, t.mem, c.scratch) && ValOk(x, Leaves(ty)) && ValOk(y, Leaves(ty))
    requires Known(t, a, Enc(x, Leaves(ty)), e.next) && Known(t, b, Enc(y, Leaves(ty)), e.next)
    requires BinSem(env, mem, op, ty, x, y) == Some(v) && ValOk(v, Leaves(BinResultTy(op, ty)))
    ensures var r := EmitBinOp(e, op, ty, a, b);
            Sim(c, t0, r.0, u) && Keeps(t, u, e.next) && Known(u, r.1, Enc(v, Leaves(BinResultTy(op, ty))), r.0.next)
  {
    hide *;
    MemRelOk(env, mem, t.mem, c.scratch);
    AggBinMeans(env, mem, op, ty, x, y, v);
    u := AggBinOk(c, t0, e, env, mem, op, ty, a, b, x, y, SemEq(env, mem, ty, x, y).value, t);
  }

  lemma AggBinMeans(env: Env, mem: Mem, op: BinOp, ty: Ty, x: Val, y: Val, v: Val)
    requires (ty.Array? || ty.Slice?) && BinOpOk(op, ty) && MemOk(env, mem) && ValOk(x, Leaves(ty))
    requires ValOk(y, Leaves(ty))
    requires BinSem(env, mem, op, ty, x, y) == Some(v) && ValOk(v, Leaves(BinResultTy(op, ty)))
    ensures SemEq(env, mem, ty, x, y).Some?
    ensures Enc(v, Leaves(BinResultTy(op, ty))) ==
              BoolCell(if op.Eq? then SemEq(env, mem, ty, x, y).value else !SemEq(env, mem, ty, x, y).value)
  {
    hide SemEqUpTo, SemEqAll, SemEq, MemOk;
    EncBool(v[0].b);
  }

  lemma BinOpSim(c: Code, t0: TState, e: Em, env: Env, mem: Mem, op: BinOp, ty: Ty, a: Opnd, b: Opnd, x: Val, y: Val,
      v: Val, t: TState)
    returns (u: TState)
    requires Ready(e) && BinOpOk(op, ty) && Within(EmitBinOp(e, op, ty, a, b).0, c) && Sim(c, t0, e, t)
    requires MemRel(env, mem, t.mem, c.scratch) && ValOk(x, Leaves(ty)) && ValOk(y, Leaves(ty))
    requires Known(t, a, Enc(x, Leaves(ty)), e.next) && Known(t, b, Enc(y, Leaves(ty)), e.next)
    requires BinSem(env, mem, op, ty, x, y) == Some(v) && ValOk(v, Leaves(BinResultTy(op, ty)))
    ensures var r := EmitBinOp(e, op, ty, a, b);
            Sim(c, t0, r.0, u) && Keeps(t, u, e.next) && Known(u, r.1, Enc(v, Leaves(BinResultTy(op, ty))), r.0.next)
  {
    OperandTypes(op, ty);
    MemRelOk(env, mem, t.mem, c.scratch);
    hide *;
    if ty.Int? {
      u := IntBinSim(c, t0, e, env, mem, op, ty, a, b, x, y, v, t);
    } else if ty.Bool? {
      u := BoolBinSim(c, t0, e, env, mem, op, ty, a, b, x, y, v, t);
    } else if ty.Float? {
      u := FloatBinSim(c, t0, e, env, mem, op, ty, a, b, x, y, v, t);
    } else if ty.IsPointer() {
      u := PtrBinSim(c, t0, e, env, mem, op, ty, a, b, x, y, v, t);
    } else {
      u := AggBinSim(c, t0, e, env, mem, op, ty, a, b, x, y, v, t);
    }
  }

  lemma OperandTypes(op: BinOp, ty: Ty)
    requires BinOpOk(op, ty)
    ensures ty.Int? || ty.Bool? || ty.Float? || ty.IsPointer() || ty.Array? || ty.Slice?
  {
  }

  lemma BoolEqIs(op: BinOp, a: bool, b: bool)
    ensures op.Eq? ==> BoolOp(op, a, b) == (a == b)
    ensures op.Ne? ==> BoolOp(op, a, b) == (a != b)
  {
  }

  lemma EncPtr(a: Addr)
    ensures Enc([SPtr(a)], [LPtr]) == [CPtr(a)]
  {
  }

  lemma BinarySim(c: Code, t0: TState, e: Em, env: Env, mem: Mem, op: BinOp, l: Operand, r: Operand, ty: Ty, x: Val,
      y: Val, v: Val, t: TState)
    returns (u: TState)
    requires Ready(e) && OperandOk(env, l, ty) && OperandOk(env, r, ty) && BinOpOk(op, ty)
    requires Within(EmitBinary(env, e, op, l, r, ty).0, c) && Sim(c, t0, e, t) && MemRel(env, mem, t.mem, c.scratch)
    requires ValOk(x, Leaves(ty)) && ValOk(y, Leaves(ty)) && ValOk(v, Leaves(BinResultTy(op, ty)))
    requires EvalOperand(env, mem, l, ty) == Some(x) && EvalOperand(env, mem, r, ty) == Some(y)
    requires BinSem(env, mem, op, ty, x, y) == Some(v)
    ensures var q := EmitBinary(env, e, op, l, r, ty);
            Sim(c, t0, q.0, u) && Keeps(t, u, e.next) && Known(u, q.1, Enc(v, Leaves(BinResultTy(op, ty))), q.0.next)
  {
    hide Within, Sim, Keeps, Known, Ready, Grows, EmitBinOp, EmitOperand, EvalOperand, MemRel, MemOk, ValOk, Enc,
         Leaves, BinSem, OperandOk, BinOpOk, BinResultTy;
    ValLen(x, Leaves(ty));
    var (e1, a) := EmitOperand(env, e, l, ty);
    var (e2, b) := EmitOperand(env, e1, r, ty);
    var q := EmitBinOp(e2, op, ty, a, b);
    WithinTrans(e2, q.0, c); WithinTrans(e1, e2, c);
    GrowsNext(e, e1); GrowsNext(e1, e2);
    var s1 := OperandValue(c, t0, e, env, mem, l, ty, x, t);
    KeepsMem(t, s1, e.next);
    var s2 := OperandValue(c, t0, e1, env, mem, r, ty, y, s1);
    KeepsMem(s1, s2, e1.next);
    KnownKept(s1, s2, e1.next, a, Enc(x, Leaves(ty)), e2.next);
    KeepsTrans(t, s1, s2, e.next, e1.next);
    u := BinOpSim(c, t0, e2, env, mem, op, ty, a, b, x, y, v, s2);
    KeepsTrans(t, s2, u, e.next, e2.next);
  }

  lemma NotSim(c: Code, t0: TState, e: Em, op: UnOp, ty: Ty, a: Opnd, x: Val, v: Val, t: TState) returns (u: TState)
    requires Ready(e) && UnOpOk(op, ty) && op.Not? && Within(EmitUnOp(e, op, ty, a).0, c) && Sim(c, t0, e, t)
    requires ValOk(x, Leaves(ty)) && UnSem(op, ty, x) == Some(v) && ValOk(v, Leaves(ty))
    requires Known(t, a, Enc(x, Leaves(ty)), e.next)
    ensures var r := EmitUnOp(e, op, ty, a);
            Sim(c, t0, r.0, u) && Keeps(t, u, e.next) && Known(u, r.1, Enc(v, Leaves(ty)), r.0.next)
  {
    SimRunning(c, t0, e, t);
    hide Within, Sim, Keeps, Known, Ready, Grows, Def, EvalIr, EmitNot;
    assert x == [x[0]] && ScalarOk(x[0], Leaves(ty)[0]);
    EncBool(x[0].b);
    EncBool(v[0].b);
    u := NotBoolOk(c, t0, e, a, x[0].b, t);
  }

  lemma NegSim(c: Code, t0: TState, e: Em, op: UnOp, ty: Ty, a: Opnd, x: Val, v: Val, t: TState) returns (u: TState)
    requires Ready(e) && UnOpOk(op, ty) && op.Neg? && ty.Int? && Within(EmitUnOp(e, op, ty, a).0, c) && Sim(c, t0, e, t)
    requires ValOk(x, Leaves(ty)) && UnSem(op, ty, x) == Some(v) && ValOk(v, Leaves(ty))
    requires Known(t, a, Enc(x, Leaves(ty)), e.next)
    ensures var r := EmitUnOp(e, op, ty, a);
            Sim(c, t0, r.0, u) && Keeps(t, u, e.next) && Known(u, r.1, Enc(v, Leaves(ty)), r.0.next)
  {
    SimRunning(c, t0, e, t);
    hide Within, Sim, Keeps, Known, Ready, Grows, Def, EvalIr, EmitNot;
    assert x == [x[0]] && ScalarOk(x[0], Leaves(ty)[0]);
    var w := ty.bits;
    EncInt(x[0].n, w, ty.signed);
    EncInt(v[0].n, w, ty.signed);
    NegOk(w, x[0].n);
    KnownLit(t, Lit([Bits(w, 0)]), e.next);
    u := BinOk(c, t0, e, ISub, Lit([Bits(w, 0)]), a, w, 0, x[0].n % Pow2(w), t);
  }

  lemma FloatNegSim(c: Code, t0: TState, e: Em, op: UnOp, ty: Ty, a: Opnd, x: Val, v: Val, t: TState)
    returns (u: TState)
    requires Ready(e) && UnOpOk(op, ty) && op.Neg? && ty.Float?
    requires Within(EmitUnOp(e, op, ty, a).0, c) && Sim(c, t0, e, t)
    requires ValOk(x, Leaves(ty)) && UnSem(op, ty, x) == Some(v) && ValOk(v, Leaves(ty))
    requires Known(t, a, Enc(x, Leaves(ty)), e.next)
    ensures var r := EmitUnOp(e, op, ty, a);
            Sim(c, t0, r.0, u) && Keeps(t, u, e.next) && Known(u, r.1, Enc(v, Leaves(ty)), r.0.next)
  {
    hide Within, Sim, Keeps, Known, Ready, Grows, Def, FloatNeg, IsFloat, EmitNot;
    assert x == [x[0]] && ScalarOk(x[0], Leaves(ty)[0]);
    assert Enc(x, Leaves(ty)) == [Bits(FloatBits(ty.double), x[0].f)];
    assert Enc(v, Leaves(ty)) == [Bits(FloatBits(ty.double), FloatNeg(ty.double, x[0].f))];
    u := FnegOk(c, t0, e, a, ty.double, x[0].f, t);
  }

  lemma BitNotSim(c: Code, t0: TState, e: Em, op: UnOp, ty: Ty, a: Opnd, x: Val, v: Val, t: TState) returns (u: TState)
    requires Ready(e) && UnOpOk(op, ty) && !op.Not? && !op.Neg? && Within(EmitUnOp(e, op, ty, a).0, c)
    requires Sim(c, t0, e, t)
    requires ValOk(x, Leaves(ty)) && UnSem(op, ty, x) == Some(v) && ValOk(v, Leaves(ty))
    requires Known(t, a, Enc(x, Leaves(ty)), e.next)
    ensures var r := EmitUnOp(e, op, ty, a);
            Sim(c, t0, r.0, u) && Keeps(t, u, e.next) && Known(u, r.1, Enc(v, Leaves(ty)), r.0.next)
  {
    SimRunning(c, t0, e, t);
    BitNotValue(op, ty, x, v);
    BitNotCode(e, op, ty, a);
    hide *;
    var w := ty.bits;
    var ones := Lit([Bits(w, Pow2(w) - 1)]);
    KnownLit(t, ones, e.next);
    u := BinOk(c, t0, e, IXor, a, ones, w, x[0].n % Pow2(w), Pow2(w) - 1, t);
  }

  lemma BitNotCode(e: Em, op: UnOp, ty: Ty, a: Opnd)
    requires Ready(e) && UnOpOk(op, ty) && !op.Not? && !op.Neg? && ty.Int?
    ensures EmitUnOp(e, op, ty, a) == Def(e, Bin(e.next, IXor, a, Lit([Bits(ty.bits, Pow2(ty.bits) - 1)])))
    ensures EmitUnOp(e, op, ty, a).1 == Reg(e.next) && EmitUnOp(e, op, ty, a).0.next == e.next + 1
  {
  }

  lemma BitNotValue(op: UnOp, ty: Ty, x: Val, v: Val)
    requires UnOpOk(op, ty) && !op.Not? && !op.Neg? && ValOk(x, Leaves(ty)) && UnSem(op, ty, x) == Some(v)
    requires ValOk(v, Leaves(ty))
    ensures ty.Int? && |x| == 1 && |v| == 1 && x[0].SInt? && v[0].SInt?
    ensures var w := ty.bits;
            && Enc(x, Leaves(ty)) == [Bits(w, x[0].n % Pow2(w))] && Enc(v, Leaves(ty)) == [Bits(w, v[0].n % Pow2(w))]
            && x[0].n % Pow2(w) >= 0
            && EvalIr(IXor, w, x[0].n % Pow2(w), Pow2(w) - 1) == Some(v[0].n % Pow2(w))
  {
    assert x == [x[0]] && ScalarOk(x[0], Leaves(ty)[0]);
    EncInt(x[0].n, ty.bits, ty.signed);
    EncInt(v[0].n, ty.bits, ty.signed);
    NotOk(ty.bits, x[0].n);
    hide EvalIr;
  }

  lemma UnOpSim(c: Code, t0: TState, e: Em, op: UnOp, ty: Ty, a: Opnd, x: Val, v: Val, t: TState) returns (u: TState)
    requires Ready(e) && UnOpOk(op, ty) && Within(EmitUnOp(e, op, ty, a).0, c) && Sim(c, t0, e, t)
    requires ValOk(x, Leaves(ty)) && UnSem(op, ty, x) == Some(v) && ValOk(v, Leaves(ty))
    requires Known(t, a, Enc(x, Leaves(ty)), e.next)
    ensures var r := EmitUnOp(e, op, ty, a);
            Sim(c, t0, r.0, u) && Keeps(t, u, e.next) && Known(u, r.1, Enc(v, Leaves(ty)), r.0.next)
  {
    hide *;
    if op.Not? {
      u := NotSim(c, t0, e, op, ty, a, x, v, t);
    } else if op.Neg? && ty.Float? {
      u := FloatNegSim(c, t0, e, op, ty, a, x, v, t);
    } else if op.Neg? {
      NegTy(op, ty);
      u := NegSim(c, t0, e, op, ty, a, x, v, t);
    } else {
      u := BitNotSim(c, t0, e, op, ty, a, x, v, t);
    }
  }

  lemma NegTy(op: UnOp, ty: Ty)
    requires UnOpOk(op, ty) && op.Neg? && !ty.Float?
    ensures ty.Int?
  {
  }

  /** Conversions between integers, truth values and pointers. */
  lemma CastSim(c: Code, t0: TState, e: Em, src: Ty, dst: Ty, a: Opnd, x: Val, v: Val, t: TState) returns (u: TState)
    requires Ready(e) && CastOk(src, dst) && Within(EmitCast(e, src, dst, a).0, c) && Sim(c, t0, e, t)
    requires ValOk(x, Leaves(src)) && CastSem(src, dst, x) == Some(v) && ValOk(v, Leaves(dst))
    requires Known(t, a, Enc(x, Leaves(src)), e.next)
    ensures var r := EmitCast(e, src, dst, a);
            Sim(c, t0, r.0, u) && Keeps(t, u, e.next) && Known(u, r.1, Enc(v, Leaves(dst)), r.0.next)
  {
    SimRunning(c, t0, e, t);
    KeepsSelf(t, e.next);
    CastCode(e, src, dst, a);
    CastKinds(src, dst);
    hide *;
    if src == dst || src.IsPointer() {
      SameCastMeans(src, dst, x, v);
      u := t;
    } else if src.Bool? {
      BoolCastMeans(src, dst, x, v);
      var n := if x[0].b then 1 else 0;
      ZExtBool(dst.bits, n);
      if dst.bits > 1 {
        u := ConvertOk(c, t0, e, ZExt, dst.bits, a, 1, n, t);
      } else {
        u := t;
      }
    } else {
      var w := src.bits;
      if dst.Bool? {
        ToBoolMeans(src, dst, x, v);
        NonZero(src, x[0].n);
        KnownLit(t, Lit([Bits(w, 0)]), e.next);
        u := IcmpOk(c, t0, e, NE, a, Lit([Bits(w, 0)]), w, x[0].n % Pow2(w), 0, t);
      } else {
        IntCastMeans(src, dst, x, v);
        ResizeOk(src, dst, x[0].n);
        u := ConvertOk(c, t0, e, ResizeKind(src, dst), dst.bits, a, w, x[0].n % Pow2(w), t);
      }
    }
  }

  lemma CastKinds(src: Ty, dst: Ty)
    requires CastOk(src, dst)
    ensures src == dst || src.IsPointer() || (src.Bool? && dst.Int?) || (src.Int? && (dst.Bool? || dst.Int?))
  {
  }

  lemma CastCode(e: Em, src: Ty, dst: Ty, v: Opnd)
    requires Ready(e) && CastOk(src, dst)
    ensures var r := EmitCast(e, src, dst, v);
            if src == dst || src.IsPointer() then r == (e, v)
            else if src.Bool? then
              if dst.bits > 1 then r == Def(e, Convert(e.next, ZExt, dst.bits, v)) && IsDef(e, r) else r == (e, v)
            else if dst.Bool? then r == Def(e, Icmp(e.next, NE, v, Lit([Bits(src.bits, 0)]))) && IsDef(e, r)
            else r == Def(e, Convert(e.next, ResizeKind(src, dst), dst.bits, v)) && IsDef(e, r)
  {
    hide ResizeKind;
  }

  predicate IsDef(e: Em, r: (Em, Opnd)) {
    r.1 == Reg(e.next) && r.0.next == e.next + 1
  }

  lemma SameCastMeans(src: Ty, dst: Ty, x: Val, v: Val)
    requires (src == dst || src.IsPointer()) && CastOk(src, dst) && ValOk(x, Leaves(src))
    requires CastSem(src, dst, x) == Some(v) && ValOk(v, Leaves(dst))
    ensures |x| == |Leaves(src)| && |v| == |Leaves(dst)| && Enc(v, Leaves(dst)) == Enc(x, Leaves(src))
  {
  }

  lemma BoolCastMeans(src: Ty, dst: Ty, x: Val, v: Val)
    requires src.Bool? && dst.Int? && CastOk(src, dst) && ValOk(x, Leaves(src))
    requires CastSem(src, dst, x) == Some(v) && ValOk(v, Leaves(dst))
    ensures |x| == |Leaves(src)| == 1 && |v| == |Leaves(dst)| && x[0].SBool?
    ensures var n := if x[0].b then 1 else 0;
            Enc(x, Leaves(src)) == [Bits(1, n)] && Enc(v, Leaves(dst)) == [Bits(dst.bits, n % Pow2(dst.bits))]
  {
    hide Pow2;
  }

  lemma ToBoolMeans(src: Ty, dst: Ty, x: Val, v: Val)
    requires src.Int? && dst.Bool? && CastOk(src, dst) && ValOk(x, Leaves(src))
    requires CastSem(src, dst, x) == Some(v) && ValOk(v, Leaves(dst))
    ensures |x| == |Leaves(src)| == 1 && |v| == |Leaves(dst)| && x[0].SInt?
    ensures InRange(x[0].n, src.bits, src.signed) && 0 <= x[0].n % Pow2(src.bits) < Pow2(src.bits)
    ensures Enc(x, Leaves(src)) == [Bits(src.bits, x[0].n % Pow2(src.bits))]
    ensures Enc(v, Leaves(dst)) == BoolCell(x[0].n != 0)
  {
    hide Pow2, InRange;
    assert ScalarOk(x[0], Leaves(src)[0]);
  }

  lemma IntCastMeans(src: Ty, dst: Ty, x: Val, v: Val)
    requires src != dst && src.Int? && dst.Int? && CastOk(src, dst) && ValOk(x, Leaves(src))
    requires CastSem(src, dst, x) == Some(v) && ValOk(v, Leaves(dst))
    ensures |x| == |Leaves(src)| == 1 && |v| == |Leaves(dst)| && x[0].SInt?
    ensures InRange(x[0].n, src.bits, src.signed) && 0 <= x[0].n % Pow2(src.bits) < Pow2(src.bits)
    ensures Enc(x, Leaves(src)) == [Bits(src.bits, x[0].n % Pow2(src.bits))]
    ensures Enc(v, Leaves(dst)) == [Bits(dst.bits, x[0].n % Pow2(dst.bits))]
  {
    hide Pow2, InRange;
    assert ScalarOk(x[0], Leaves(src)[0]);
  }

  lemma KeepsSelf(t: TState, n: nat)
    requires t.Running?
    ensures Keeps(t, t, n)
  {
  }

  lemma ZExtBool(w: Width, n: nat)
    requires n <= 1
    ensures EvalResize(ZExt, 1, w, n) == n % Pow2(w) && n < Pow2(1) && (w == 1 ==> n % Pow2(w) == n)
  {
  }

  lemma NonZero(ty: Ty, x: int)
    requires ty.Int? && InRange(x, ty.bits, ty.signed)
    ensures EvalPred(NE, ty.bits, x % Pow2(ty.bits), 0) == (x != 0)
  {
    var w := ty.bits;
    DivModUnique(0, Pow2(w), 0);
    HalfPow2(w);
    if x % Pow2(w) == 0 {
      PatternInjective(x, 0, w, ty.signed);
    }
  }

  lemma UnarySim(c: Code, t0: TState, e: Em, env: Env, mem: Mem, op: UnOp, o: Operand, ty: Ty, x: Val, v: Val,
      t: TState)
    returns (u: TState)
    requires Ready(e) && UnOpOk(op, ty) && OperandOk(env, o, ty)
    requires Within(EmitUnary(env, e, op, o, ty).0, c) && Sim(c, t0, e, t) && MemRel(env, mem, t.mem, c.scratch)
    requires ValOk(x, Leaves(ty)) && EvalOperand(env, mem, o, ty) == Some(x) && UnSem(op, ty, x) == Some(v)
    requires ValOk(v, Leaves(ty))
    ensures var q := EmitUnary(env, e, op, o, ty);
            Sim(c, t0, q.0, u) && Keeps(t, u, e.next) && Known(u, q.1, Enc(v, Leaves(ty)), q.0.next)
  {
    hide Within, Sim, Keeps, Known, Ready, Grows, EmitUnOp, EmitOperand, EvalOperand, MemRel, MemOk, ValOk, Enc, Leaves,
         OperandOk, UnSem;
    ValLen(x, Leaves(ty));
    var (e1, a) := EmitOperand(env, e, o, ty);
    WithinTrans(e1, EmitUnOp(e1, op, ty, a).0, c);
    GrowsNext(e, e1);
    var s := OperandValue(c, t0, e, env, mem, o, ty, x, t);
    u := UnOpSim(c, t0, e1, op, ty, a, x, v, s);
    KeepsTrans(t, s, u, e.next, e1.next);
  }

  lemma CastOfSim(c: Code, t0: TState, e: Em, env: Env, mem: Mem, o: Operand, src: Ty, dst: Ty, x: Val, v: Val,
      t: TState)
    returns (u: TState)
    requires Ready(e) && CastOk(src, dst) && OperandOk(env, o, src)
    requires Within(EmitCastOf(env, e, o, src, dst).0, c) && Sim(c, t0, e, t) && MemRel(env, mem, t.mem, c.scratch)
    requires ValOk(x, Leaves(src)) && EvalOperand(env, mem, o, src) == Some(x) && CastSem(src, dst, x) == Some(v)
    requires ValOk(v, Leaves(dst))
    ensures var q := EmitCastOf(env, e, o, src, dst);
            Sim(c, t0, q.0, u) && Keeps(t, u, e.next) && Known(u, q.1, Enc(v, Leaves(dst)), q.0.next)
  {
    hide Within, Sim, Keeps, Known, Ready, Grows, EmitCast, EmitOperand, EvalOperand, MemRel, MemOk, ValOk, Enc, Leaves,
         OperandOk, CastSem, CastOk;
    ValLen(x, Leaves(src));
    var (e1, a) := EmitOperand(env, e, o, src);
    WithinTrans(e1, EmitCast(e1, src, dst, a).0, c);
    GrowsNext(e, e1);
    var s := OperandValue(c, t0, e, env, mem, o, src, x, t);
    u := CastSim(c, t0, e1, src, dst, a, x, v, s);
    KeepsTrans(t, s, u, e.next, e1.next);
  }

  /** Reading through a pointer operand. */
  lemma ReadSim(c: Code, t0: TState, e: Em, env: Env, mem: Mem, o: Operand, src: Ty, ty: Ty, a: Addr, v: Val, t: TState)
    returns (u: TState)
    requires Ready(e) && OperandOk(env, o, src) && src.IsPointer()
    requires Within(EmitRead(env, e, o, src, ty).0, c) && Sim(c, t0, e, t) && MemRel(env, mem, t.mem, c.scratch)
    requires EvalOperand(env, mem, o, src) == Some([SPtr(a)]) && Load(env, mem, a, ty) == Some(v)
    requires ValOk(v, Leaves(ty))
    ensures var q := EmitRead(env, e, o, src, ty);
            Sim(c, t0, q.0, u) && Keeps(t, u, e.next) && Known(u, q.1, Enc(v, Leaves(ty)), q.0.next)
  {
    EncPtr(a);
    assert Leaves(src) == [LPtr] && ValOk([SPtr(a)], Leaves(src));
    hide Within, Sim, Keeps, Known, Ready, Grows, EmitOperand, EvalOperand, MemRel, MemOk, ValOk, Enc, Leaves,
         OperandOk, Load, Def, Size;
    ValLen(v, Leaves(ty));
    var (e1, p) := EmitOperand(env, e, o, src);
    WithinTrans(e1, Def(e1, LoadCells(e1.next, p, Size(ty))).0, c);
    GrowsNext(e, e1);
    var s := OperandValue(c, t0, e, env, mem, o, src, [SPtr(a)], t);
    KeepsMem(t, s, e.next);
    MemRelOk(env, mem, t.mem, c.scratch);
    u := LoadOk(c, t0, e1, p, env, mem, a, ty, s);
    KeepsTrans(t, s, u, e.next, e1.next);
  }

  // ----- aggregates -----

  /** A store into a scratch slot leaves every root of the source as it is. */
  lemma ScratchStore(env: Env, mem: Mem, tmem: TMem, scratch: seq<nat>, slot: nat, off: nat, x: Cells)
    requires MemRel(env, mem, tmem, scratch) && |env.roots| <= slot < |tmem| && off + |x| <= |tmem[slot]|
    ensures LoadT(tmem, At(slot, off), |x|).Some?
    ensures MemRel(env, mem, tmem[slot := Splice(tmem[slot], off, x)], scratch)
  {
    var m := tmem[slot := Splice(tmem[slot], off, x)];
    hide ValOk, Leaves, Enc;
    forall k | 0 <= k < |scratch| ensures |m[|mem| + k]| == scratch[k] {
    }
  }

  /** What one member of an aggregate adds. */
  lemma {:induction false} StoresSim(c: Code, t0: TState, e: Em, env: Env, mem: Mem, slot: nat, off: nat,
      os: seq<Operand>, tys: seq<Ty>, v: Val, t: TState)
    returns (u: TState)
    requires Ready(e) && |os| == |tys| && (forall i :: 0 <= i < |os| ==> OperandOk(env, os[i], tys[i]))
    requires Within(EmitStores(env, e, slot, off, os, tys), c) && Sim(c, t0, e, t) && MemRel(env, mem, t.mem, c.scratch)
    requires EvalAll(env, mem, os, tys) == Some(v) && ValOk(v, LeavesAll(tys))
    requires |env.roots| <= slot < |t.mem| && |t.mem[slot]| == off + |v|
    ensures Sim(c, t0, EmitStores(env, e, slot, off, os, tys), u) && MemRel(env, mem, u.mem, c.scratch)
    ensures slot < |u.mem| && |t.mem[slot]| == |u.mem[slot]|
    ensures u.mem[slot] == t.mem[slot][..off] + Enc(v, LeavesAll(tys))
    decreases |os|
  {
    hide *;
    SimRunning(c, t0, e, t);
    MemRelOk(env, mem, t.mem, c.scratch);
    if os == [] {
      StoresNil(env, e, mem, slot, off, t.mem[slot], v);
      u := t;
    } else {
      var head, rest := MemberParts(env, mem, os, tys, v);
      var size := Size(tys[0]);
      var (e1, x) := EmitOperand(env, e, os[0], tys[0]);
      var (e2, p) := Def(e1, GepConst(e1.next, RootPtr(slot), off));
      var e3 := Push(e2, StoreCells(p, x, size));
      var cells := Enc(head, Leaves(tys[0]));
      EmitStoresCons(env, e, slot, off, os, tys);
      var f := EmitStores(env, e3, slot, off + size, os[1..], tys[1..]);
      WithinTrans(e3, f, c); WithinTrans(e2, e3, c); WithinTrans(e1, e2, c);
      var s1 := OperandValue(c, t0, e, env, mem, os[0], tys[0], head, t);
      KeepsMem(t, s1, e.next);
      RootPtrKnown(s1, slot, e1.next);
      var s2 := GepConstOk(c, t0, e1, RootPtr(slot), off, At(slot, 0), s1);
      KeepsMem(s1, s2, e1.next);
      KnownKept(s1, s2, e1.next, x, cells, e2.next);
      ScratchStore(env, mem, s2.mem, c.scratch, slot, off, cells);
      KnownAddr(s2, p, At(slot, off), e2.next);
      KnownEval(s2, x, cells, e2.next);
      var s3 := StoreOk(c, t0, e2, p, x, At(slot, off), cells, s2);
      SplicePrefix(t.mem[slot], off, cells);
      u := StoresSim(c, t0, e3, env, mem, slot, off + size, os[1..], tys[1..], rest, s3);
      AppendCells(t.mem[slot][..off], cells, Enc(rest, LeavesAll(tys[1..])));
    }
  }

  lemma StoresNil(env: Env, e: Em, mem: Mem, slot: nat, off: nat, cells: Cells, v: Val)
    requires Ready(e) && MemOk(env, mem) && EvalAll(env, mem, [], []) == Some(v) && |cells| == off + |v|
    ensures EmitStores(env, e, slot, off, [], []) == e && |v| == |LeavesAll([])|
    ensures cells == cells[..off] + Enc(v, LeavesAll([]))
  {
    hide MemOk;
  }

  lemma RootPtrKnown(t: TState, slot: nat, n: nat)
    requires t.Running?
    ensures Known(t, RootPtr(slot), [CPtr(At(slot, 0))], n)
  {
  }

  lemma KnownAddr(t: TState, p: Opnd, a: Addr, n: nat)
    requires Known(t, p, [CPtr(a)], n)
    ensures EvalAddr(t.regs, p) == Some(a)
  {
  }

  lemma SplicePrefix(s: Cells, off: nat, x: Cells)
    requires off + |x| <= |s|
    ensures Splice(s, off, x)[..off + |x|] == s[..off] + x && |Splice(s, off, x)| == |s|
  {
  }

  lemma AppendCells(a: Cells, b: Cells, d: Cells)
    ensures (a + b) + d == a + (b + d)
  {
  }

  lemma MemberParts(env: Env, mem: Mem, os: seq<Operand>, tys: seq<Ty>, v: Val) returns (head: Val, rest: Val)
    requires MemOk(env, mem) && |os| == |tys| && os != [] && forall i :: 0 <= i < |os| ==> OperandOk(env, os[i], tys[i])
    requires EvalAll(env, mem, os, tys) == Some(v) && ValOk(v, LeavesAll(tys))
    ensures OperandOk(env, os[0], tys[0]) && forall i :: 0 <= i < |os[1..]| ==> OperandOk(env, os[1..][i], tys[1..][i])
    ensures v == head + rest && EvalOperand(env, mem, os[0], tys[0]) == Some(head) && ValOk(head, Leaves(tys[0]))
    ensures |head| == |Leaves(tys[0])| == Size(tys[0]) && |rest| == |LeavesAll(tys[1..])|
    ensures EvalAll(env, mem, os[1..], tys[1..]) == Some(rest) && ValOk(rest, LeavesAll(tys[1..]))
    ensures |v| == |LeavesAll(tys)|
    ensures Enc(v, LeavesAll(tys)) == Enc(head, Leaves(tys[0])) + Enc(rest, LeavesAll(tys[1..]))
  {
    hide MemOk, EvalOperand, OperandOk;
    head := EvalOperand(env, mem, os[0], tys[0]).value;
    rest := EvalAll(env, mem, os[1..], tys[1..]).value;
    ValLen(head, Leaves(tys[0]));
    ValLen(rest, LeavesAll(tys[1..]));
    EncAppend(head, Leaves(tys[0]), rest, LeavesAll(tys[1..]));
  }

  lemma EncAppend(a: Val, l1: seq<Leaf>, b: Val, l2: seq<Leaf>)
    requires |a| == |l1| && |b| == |l2|
    ensures Enc(a + b, l1 + l2) == Enc(a, l1) + Enc(b, l2)
  {
  }

  /** A whole aggregate: every cell of the slot is written before the slot is read back. */
  lemma AggregateSim(c: Code, t0: TState, e: Em, env: Env, mem: Mem, os: seq<Operand>, ty: Ty, v: Val, t: TState)
    returns (u: TState)
    requires Ready(e) && IsAggregate(ty) && |os| == |Kids(ty)|
    requires (forall i :: 0 <= i < |os| ==> OperandOk(env, os[i], Kids(ty)[i]))
    requires Within(EmitAggregate(env, e, os, ty).0, c) && Sim(c, t0, e, t) && MemRel(env, mem, t.mem, c.scratch)
    requires EvalAll(env, mem, os, Kids(ty)) == Some(v) && ValOk(v, Leaves(ty))
    ensures var q := EmitAggregate(env, e, os, ty);
            Sim(c, t0, q.0, u) && MemRel(env, mem, u.mem, c.scratch) && Known(u, q.1, Enc(v, Leaves(ty)), q.0.next)
  {
    hide *;
    LeavesOfKids(ty);
    ValLen(v, Leaves(ty));
    AggregateParts(env, e, os, ty);
    var slot := |env.roots| + |e.scratch|;
    var e1 := AllocSlot(e, Size(ty));
    var e2 := EmitStores(env, e1, slot, 0, os, Kids(ty));
    var load := LoadCells(e2.next, RootPtr(slot), Size(ty));
    WithinTrans(e2, Def(e2, load).0, c); WithinTrans(e1, e2, c);
    SlotSize(c, e, ty, env, mem, t.mem);
    SimMoved(c, t0, e, e1, t);
    SizeIs(ty);
    var s := StoresSim(c, t0, e1, env, mem, slot, 0, os, Kids(ty), v, t);
    var cells := Enc(v, Leaves(ty));
    NoPrefix(t.mem[slot], cells);
    SimRunning(c, t0, e2, s);
    ScratchLoad(s, load, slot, cells);
    u := DefOk(c, t0, e2, load, s);
    KeepsMem(s, u, e2.next);
  }

  lemma SizeIs(ty: Ty)
    ensures Size(ty) == |Leaves(ty)|
  {
  }

  lemma NoPrefix(a: Cells, b: Cells)
    ensures a[..0] + b == b
  {
  }

  lemma SimMoved(c: Code, t0: TState, e: Em, f: Em, t: TState)
    requires Sim(c, t0, e, t) && f.cur == e.cur && f.blocks == e.blocks
    ensures Sim(c, t0, f, t)
  {
  }

  lemma ScratchLoad(s: TState, load: Instr, slot: nat, cells: Cells)
    requires s.Running? && slot < |s.mem| && s.mem[slot] == cells
    requires load.LoadCells? && load.p == RootPtr(slot) && load.n == |cells|
    ensures Result(load, s.regs, s.mem) == Some(cells)
  {
    assert cells[0..|cells|] == cells;
  }

  lemma SlotSize(c: Code, e: Em, ty: Ty, env: Env, mem: Mem, tmem: TMem)
    requires Ready(e) && Within(AllocSlot(e, Size(ty)), c) && MemRel(env, mem, tmem, c.scratch)
    ensures var slot := |env.roots| + |e.scratch|; slot < |tmem| && |tmem[slot]| == Size(ty)
  {
    var f := AllocSlot(e, Size(ty));
    assert f.scratch[|e.scratch|] == c.scratch[|e.scratch|];
  }
}
