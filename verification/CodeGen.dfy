/**
 The generator as the source has it: an object whose methods move a positioned builder and fill blocks
 in place.  Every method is tied to the emission function that the proofs speak about.
 */
module CodeGen {
  import opened Wrappers
  import opened Arith
  import opened Mir
  import opened BlockGraph
  import opened Emit
  import opened EmitFn

  class FunctionBuilder {
    const func: Func
    var blocks: seq<TBlock>
    var cur: nat
    var next: nat
    var scratch: seq<nat>

    function State(): Em
      reads this
    {
      Em(blocks, cur, next, scratch)
    }

    /** All blocks of the function exist from the start; the entry block stores the arguments. */
    constructor (f: Func)
      ensures func == f && State() == Start(f)
    {
      func := f;
      var e := Start(f);
      blocks, cur, next, scratch := e.blocks, e.cur, e.next, e.scratch;
    }

    method Append(i: Instr)
      requires Ready(State())
      modifies this
      ensures State() == Push(old(State()), i)
    {
      blocks := blocks[cur := blocks[cur].(instrs := blocks[cur].instrs + [i])];
    }

    method Define(i: Instr) returns (r: Opnd)
      requires Ready(State())
      modifies this
      ensures (State(), r) == Def(old(State()), i)
    {
      Append(i);
      r := Reg(next);
      next := next + 1;
    }

    method Terminate(t: Term)
      requires Ready(State())
      modifies this
      ensures State() == SetTerm(old(State()), t)
    {
      blocks := blocks[cur := blocks[cur].(term := t)];
    }

    /** The address of a place, one projection after the other. */
    method PlacePtr(p: Place) returns (ptr: Opnd)
      requires Ready(State()) && PlaceTy(func.env, p).Some?
      modifies this
      ensures (State(), ptr) == EmitPlace(func.env, old(State()), p)
    {
      ptr := RootPtr(p.root);
      var ty := func.env.roots[p.root];
      var k := 0;
      while k < |p.proj|
        invariant k <= |p.proj| && Ready(State()) && TyFrom(func.env, ty, p.proj[k..]).Some?
        invariant EmitProj(func.env, State(), ptr, ty, p.proj[k..]) == EmitPlace(func.env, old(State()), p)
      {
        var elem := p.proj[k];
        assert p.proj[k..][0] == elem && p.proj[k..][1..] == p.proj[k + 1..];
        var nextTy := StepTy(func.env, ty, elem).value;
        ptr := Project(ptr, ty, elem);
        ty := nextTy;
        k := k + 1;
      }
    }

    method Project(p: Opnd, ty: Ty, elem: Elem) returns (ptr: Opnd)
      requires Ready(State()) && StepTy(func.env, ty, elem).Some?
      modifies this
      ensures (State(), ptr) == EmitStep(func.env, old(State()), p, ty, elem)
    {
      match elem
      case Field(i) =>
        ptr := Define(GepConst(next, p, KidOff(ty, i)));
      case Index(l) =>
        if ty.Array? {
          var i := Define(LoadCells(next, RootPtr(l), 1));
          ptr := Define(GepScaled(next, p, i, Size(ty.elem)));
        } else {
          var base := Define(LoadCells(next, p, 1));
          var i := Define(LoadCells(next, RootPtr(l), 1));
          ptr := Define(GepScaled(next, base, i, Size(ty.item)));
        }
      case Deref =>
        ptr := Define(LoadCells(next, p, 1));
    }

    method LoadPlace(p: Place) returns (v: Opnd)
      requires Ready(State()) && PlaceTy(func.env, p).Some?
      modifies this
      ensures (State(), v) == EmitLoad(func.env, old(State()), p)
    {
      var ptr := PlacePtr(p);
      v := Define(LoadCells(next, ptr, Size(PlaceTy(func.env, p).value)));
    }

    method OperandValue(o: Operand, ty: Ty) returns (v: Opnd)
      requires Ready(State()) && OperandOk(func.env, o, ty)
      modifies this
      ensures (State(), v) == EmitOperand(func.env, old(State()), o, ty)
    {
      match o
      case Copy(p) => v := LoadPlace(p);
      case ConstInt(n) => v := Lit([Bits(ty.bits, n % Pow2(ty.bits))]);
      case ConstBool(b) => v := Lit(BoolCell(b));
      case ConstNull => v := Lit([CPtr(Null)]);
    }

    /** Structural equality: member by member, with a loop over the elements of a slice. */
    method BuildAggregateEquality(ty: Ty, l: Opnd, r: Opnd) returns (q: Opnd)
      requires Ready(State())
      modifies this
      ensures (State(), q) == EmitEq(old(State()), ty, l, r)
      decreases Depth(ty), 1
    {
      hide EmitEq, EmitEqAll, Grows, SliceOpen, SliceClose, CloseLoop, Def, Push, DepthBelow;
      if ty.Array? || ty.Struct? {
        EmitEqMembers(State(), ty, l, r);
        var acc := CompareMembers(ty, l, r);
        q := if acc.Some? then acc.value else Lit(BoolCell(true));
      } else if ty.Slice? {
        EmitEqSlice(State(), ty.item, l, r);
        var base, from, head := next, cur, |blocks|;
        OpenSliceLoop(ty.item, l, r);
        var here := BuildAggregateEquality(ty.item, Reg(base + 11), Reg(base + 12));
        q := CloseSliceLoop(from, head, base, here);
      } else {
        EmitEqLeaf(State(), ty, l, r);
        if ty.Float? {
          q := Define(Fcmp(next, OEQ, l, r));
        } else {
          q := Define(Icmp(next, EQ, l, r));
        }
      }
    }

    /** Extract and compare the members in order, folding the results into an accumulator. */
    method CompareMembers(ty: Ty, l: Opnd, r: Opnd) returns (acc: Option<Opnd>)
      requires Ready(State()) && DepthBelow(Kids(ty), Depth(ty))
      modifies this
      ensures (State(), acc) == EmitEqAll(old(State()), Depth(ty), Kids(ty), 0, l, r, None)
      decreases Depth(ty), 0
    {
      hide EmitEq, EmitEqAll, Grows, Def, Push, Kids, Depth;
      var kids, d := Kids(ty), Depth(ty);
      acc := None;
      var k: nat, off: nat := 0, 0;
      assert kids[0..] == kids;
      while k < |kids|
        invariant k <= |kids| && Ready(State()) && DepthBelow(kids[k..], d)
        invariant EmitEqAll(State(), d, kids[k..], off, l, r, acc) == EmitEqAll(old(State()), d, kids, 0, l, r, None)
      {
        var n := Size(kids[k]);
        EmitEqAllCons(State(), d, kids[k..], off, l, r, acc);
        assert kids[k..][0] == kids[k] && kids[k..][1..] == kids[k + 1..];
        var a := Define(Extract(next, l, off, n));
        var b := Define(Extract(next, r, off, n));
        var here := BuildAggregateEquality(kids[k], a, b);
        if acc.None? {
          acc := Some(here);
        } else {
          var both := Define(Bin(next, IAnd, acc.value, here));
          acc := Some(both);
        }
        k, off := k + 1, off + n;
      }
      assert kids[k..] == [];
      EmitEqAllNil(State(), d, off, l, r, acc);
    }

    /** Compare lengths, open the loop and read both elements. */
    method OpenSliceLoop(item: Ty, l: Opnd, r: Opnd)
      requires Ready(State())
      modifies this
      ensures State() == SliceOpen(old(State()), item, l, r)
    {
      var base, head := next, |blocks|;
      CompareLengths(l, r);
      LeaveForLoop(base);
      LoadElements(base, Size(item));
    }

    method CompareLengths(l: Opnd, r: Opnd)
      requires Ready(State())
      modifies this
      ensures State() == SlicePrelude(old(State()), l, r)
    {
      hide Def, Push, Grows, SlicePrelude, SliceExtracts;
      ExtractsParts(State(), l, r);
      PreludeParts(State(), l, r);
      var lPtr := Define(Extract(next, l, 0, 1));
      var rPtr := Define(Extract(next, r, 0, 1));
      var lLen := Define(Extract(next, l, 1, 1));
      var rLen := Define(Extract(next, r, 1, 1));
      var lenEq := Define(Icmp(next, EQ, lLen, rLen));
      var until := Define(Select(next, lenEq, lLen, Lit([Bits(PTR_BITS, 0)])));
    }

    method LeaveForLoop(base: nat)
      requires Ready(State()) && next == base + 6
      modifies this
      ensures State() == OpenLoop(old(State()), base)
    {
      var head := |blocks|;
      Terminate(Br(head));
      blocks := blocks + [HeadBlock(base, head + 1, [], []), EMPTY_BLOCK, EMPTY_BLOCK];
      cur, next := head + 1, base + 9;
    }

    method LoadElements(base: nat, size: nat)
      requires Ready(State()) && next == base + 9
      modifies this
      ensures State() == LoopLoads(old(State()), base, size)
    {
      hide Def, Push, Grows, LoopLoads;
      LoopLoadsParts(State(), base, size);
      var lElem := Define(GepScaled(next, Reg(base), Reg(base + 6), size));
      var rElem := Define(GepScaled(next, Reg(base + 1), Reg(base + 6), size));
      var x := Define(LoadCells(next, lElem, size));
      var y := Define(LoadCells(next, rElem, size));
    }

    /** Fold the result, count, jump back, give both phi nodes their values, continue after the loop. */
    method CloseSliceLoop(from: nat, head: nat, base: nat, here: Opnd) returns (q: Opnd)
      requires Ready(State()) && head + 2 < |blocks| && Ready(CloseLoop(State(), from, head, base, here))
      modifies this
      ensures (State(), q) == SliceClose(old(State()), from, head, base, here)
    {
      var accNext := Define(Bin(next, IAnd, Reg(base + 7), here));
      var iNext := Define(Bin(next, IAdd, Reg(base + 6), Lit([Bits(PTR_BITS, 1)])));
      Terminate(Br(head));
      var i := [(from, Lit([Bits(PTR_BITS, 0)])), (head + 1, iNext)];
      var acc := [(from, Lit(BoolCell(true))), (head + 1, accNext)];
      blocks := blocks[head := HeadBlock(base, head + 1, i, acc)];
      cur := head + 2;
      q := Define(Bin(next, IAnd, Reg(base + 4), Reg(base + 7)));
    }

    method BinaryOp(op: BinOp, l: Operand, r: Operand, ty: Ty) returns (v: Opnd)
      requires Ready(State()) && OperandOk(func.env, l, ty) && OperandOk(func.env, r, ty) && BinOpOk(op, ty)
      modifies this
      ensures (State(), v) == EmitBinary(func.env, old(State()), op, l, r, ty)
    {
      var a := OperandValue(l, ty);
      var b := OperandValue(r, ty);
      v := Operate(op, a, b, ty);
    }

    /** Floats are compared in order, pointers for equality, arrays and slices walked; integers take one instruction,
        chosen by the signedness of the type. */
    method Operate(op: BinOp, a: Opnd, b: Opnd, ty: Ty) returns (v: Opnd)
      requires Ready(State()) && BinOpOk(op, ty)
      modifies this
      ensures (State(), v) == EmitBinOp(old(State()), op, ty, a, b)
    {
      hide Def, Push, Grows, EmitEq, EmitNot, IrBin, IrPred, IrFPred;
      if ty.Float? {
        v := Define(Fcmp(next, IrFPred(op), a, b));
      } else if ty.IsPointer() {
        v := Define(Icmp(next, if op.Eq? then EQ else NE, a, b));
      } else if ty.Array? || ty.Slice? {
        v := BuildAggregateEquality(ty, a, b);
        if op.Ne? {
          v := Negate(v);
        }
      } else {
        var signed := ty.Int? && ty.signed;
        if op.IsComparison() {
          v := Define(Icmp(next, IrPred(op, signed), a, b));
        } else {
          v := Define(Bin(next, IrBin(op, signed), a, b));
        }
      }
    }

    method Negate(v: Opnd) returns (r: Opnd)
      requires Ready(State())
      modifies this
      ensures (State(), r) == EmitNot(old(State()), v)
    {
      r := Define(Bin(next, IXor, v, Lit(BoolCell(true))));
    }

    method UnaryOp(op: UnOp, o: Operand, ty: Ty) returns (v: Opnd)
      requires Ready(State()) && UnOpOk(op, ty) && OperandOk(func.env, o, ty)
      modifies this
      ensures (State(), v) == EmitUnary(func.env, old(State()), op, o, ty)
    {
      var x := OperandValue(o, ty);
      match op
      case Not => v := Negate(x);
      case Neg =>
        if ty.Float? {
          v := Define(Fneg(next, x));
        } else {
          v := Define(Bin(next, ISub, Lit([Bits(ty.bits, 0)]), x));
        }
      case BitNot => v := Define(Bin(next, IXor, x, Lit([Bits(ty.bits, Pow2(ty.bits) - 1)])));
    }

    method CastValue(o: Operand, src: Ty, dst: Ty) returns (v: Opnd)
      requires Ready(State()) && OperandOk(func.env, o, src) && CastOk(src, dst)
      modifies this
      ensures (State(), v) == EmitCastOf(func.env, old(State()), o, src, dst)
    {
      v := OperandValue(o, src);
      if src == dst || src.IsPointer() {
      } else if src.Bool? {
        if dst.bits > 1 {
          v := Define(Convert(next, ZExt, dst.bits, v));
        }
      } else if dst.Bool? {
        v := Define(Icmp(next, NE, v, Lit([Bits(src.bits, 0)])));
      } else {
        v := Define(Convert(next, ResizeKind(src, dst), dst.bits, v));
      }
    }

    /** Build an aggregate in a scratch slot and read it back. */
    method AggregateValue(os: seq<Operand>, ty: Ty) returns (v: Opnd)
      requires Ready(State()) && |os| == |Kids(ty)| &&
                 forall i :: 0 <= i < |os| ==> OperandOk(func.env, os[i], Kids(ty)[i])
      modifies this
      ensures (State(), v) == EmitAggregate(func.env, old(State()), os, ty)
    {
      hide Def, Push, Grows, EmitOperand, EmitStores, OperandOk, Kids, EmitAggregate;
      AggregateParts(func.env, State(), os, ty);
      var slot, tys := |func.env.roots| + |scratch|, Kids(ty);
      scratch := scratch + [Size(ty)];
      ghost var start := State();
      var k: nat, off: nat := 0, 0;
      assert os[0..] == os && tys[0..] == tys;
      while k < |os|
        invariant k <= |os| && Ready(State())
        invariant EmitStores(func.env, State(), slot, off, os[k..], tys[k..]) ==
                    EmitStores(func.env, start, slot, 0, os, tys)
      {
        EmitStoresCons(func.env, State(), slot, off, os[k..], tys[k..]);
        assert os[k..][0] == os[k] && os[k..][1..] == os[k + 1..];
        assert tys[k..][0] == tys[k] && tys[k..][1..] == tys[k + 1..];
        var x := OperandValue(os[k], tys[k]);
        var ptr := Define(GepConst(next, RootPtr(slot), off));
        Append(StoreCells(ptr, x, Size(tys[k])));
        k, off := k + 1, off + Size(tys[k]);
      }
      assert os[k..] == [] && tys[k..] == [];
      EmitStoresNil(func.env, State(), slot, off);
      v := Define(LoadCells(next, RootPtr(slot), Size(ty)));
    }

    method RvalueValue(rv: Rvalue, ty: Ty) returns (v: Opnd)
      requires Ready(State()) && RvalueOk(func.env, rv, ty)
      modifies this
      ensures (State(), v) == EmitRvalue(func.env, old(State()), rv, ty)
    {
      match rv
      case Use(o) =>
        if OperandOk(func.env, o, ty) {
          v := OperandValue(o, ty);
        } else {
          v := CastValue(o, OperandTy(func.env, o).value, ty);
        }
      case Binary(op, l, r) => v := BinaryOp(op, l, r, BinTy(func.env, l, r).value);
      case Unary(op, o) => v := UnaryOp(op, o, ty);
      case Ref(p) => v := PlacePtr(p);
      case Read(o) =>
        var ptr := OperandValue(o, OperandTy(func.env, o).value);
        v := Define(LoadCells(next, ptr, Size(ty)));
      case Cast(o, target) =>
        if CastOk(OperandTy(func.env, o).value, target) {
          v := CastValue(o, OperandTy(func.env, o).value, target);
        } else {
          v := PlacePtr(o.place);
        }
      case Aggregate(os) => v := AggregateValue(os, ty);
    }

    method EmitStatement(s: Stmt)
      requires Ready(State()) && StmtOk(func.env, s)
      modifies this
      ensures State() == EmitStmt(func.env, old(State()), s)
    {
      match s
      case Nop =>
      case Discard(o) =>
        if o.Copy? && !PlaceTy(func.env, o.place).value.Void? {
          var v := OperandValue(o, PlaceTy(func.env, o.place).value);
        }
      case Assign(p, rv) =>
        var ty := PlaceTy(func.env, p).value;
        if !ty.Void? {
          var v := RvalueValue(rv, ty);
          var ptr := PlacePtr(p);
          Append(StoreCells(ptr, v, Size(ty)));
        }
    }

    method EmitTerminator(t: Terminator)
      requires Ready(State()) && TermOk(func, t)
      modifies this
      ensures var (e, x) := EmitTerm(func, old(State()), t); State() == SetTerm(e, x)
    {
      match t
      case Goto(b) => Terminate(Br(b));
      case SwitchInt(d, cases, otherwise) =>
        var v := LoadPlace(d);
        Terminate(Switch(v, otherwise, CasePatterns(SwitchWidth(PlaceTy(func.env, d).value), cases)));
      case Return(o) =>
        var v := OperandValue(o, func.retTy);
        Terminate(Ret(v));
      case ReturnVoid => Terminate(RetVoid);
      case Unreachable => Terminate(Trap);
    }

    /** Fill every block of the function, in order. */
    method EmitFunctionBody()
      requires FuncOk(func) && State() == Start(func)
      modifies this
      ensures CodeOf(State()) == EmitFunction(func)
    {
      hide EmitBlock, EmitStmts, EmitTerm, SetTerm, Grows, Pending, FuncOk;
      var b := 0;
      StartPending(func);
      while b < |func.blocks|
        invariant b <= |func.blocks| && Pending(func, State(), b)
        invariant CodeOf(EmitBlocks(func, State(), b)) == EmitFunction(func)
      {
        ghost var e := State();
        var blk := func.blocks[b];
        PendingBlock(func, e, b);
        BlockOkOf(func, b);
        cur := b;
        FillBlock(blk);
        PendingMoved(func, e, b);
        PendingNext(func, e.(cur := b), State(), b);
        b := b + 1;
      }
    }

    method FillBlock(b: Block)
      requires Ready(State()) && (forall k :: 0 <= k < |b.stmts| ==> StmtOk(func.env, b.stmts[k]))
      requires TermOk(func, b.term)
      modifies this
      ensures State() == EmitBlock(func, old(State()), b)
    {
      hide EmitStmts, EmitTerm, SetTerm, Grows;
      EmitStatements(b.stmts);
      EmitTerminator(b.term);
    }

    method EmitStatements(ss: seq<Stmt>)
      requires Ready(State()) && forall k :: 0 <= k < |ss| ==> StmtOk(func.env, ss[k])
      modifies this
      ensures State() == EmitStmts(func.env, old(State()), ss)
    {
      var k := 0;
      assert ss[0..] == ss;
      while k < |ss|
        invariant k <= |ss| && Ready(State())
        invariant EmitStmts(func.env, State(), ss[k..]) == EmitStmts(func.env, old(State()), ss)
      {
        assert ss[k..][0] == ss[k] && ss[k..][1..] == ss[k + 1..];
        EmitStatement(ss[k]);
        k := k + 1;
      }
    }
  }
}
