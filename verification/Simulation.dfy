/**
 Emission preserves meaning.  Every block step of a well-typed function is matched by the emitted
 graph, with equal contents of all roots at the start of every block and equal results, although one
 source block may have become several target blocks.
 */
module Simulation {
  import opened Wrappers
  import opened Arith
  import opened Mir
  import opened BlockGraph
  import opened Emit
  import opened Encode
  import opened EqProof
  import opened EmitFn
  import opened IrArith
  import opened EmitProof

  // ----- rvalues -----

  lemma RvalueSim(c: Code, t0: TState, e: Em, env: Env, mem: Mem, rv: Rvalue, ty: Ty, v: Val, t: TState)
    returns (u: TState)
    requires Ready(e) && RvalueOk(env, rv, ty) && Within(EmitRvalue(env, e, rv, ty).0, c) && Sim(c, t0, e, t)
    requires MemRel(env, mem, t.mem, c.scratch) && EvalRvalue(env, mem, rv, ty) == Some(v) && ValOk(v, Leaves(ty))
    ensures var r := EmitRvalue(env, e, rv, ty);
            Sim(c, t0, r.0, u) && MemRel(env, mem, u.mem, c.scratch) && Known(u, r.1, Enc(v, Leaves(ty)), r.0.next)
  {
    MemRelOk(env, mem, t.mem, c.scratch);
    hide Within, Sim, Known, Ready, Grows, MemRel, MemOk, ValOk, Enc, Leaves, OperandOk, EvalOperand, EmitOperand,
         EmitBinary, EmitUnary, EmitCastOf, EmitRead, EmitAggregate, EmitPlace, PlaceAddr, Load, BinSem, UnSem, CastSem,
         CastOk, BinOpOk, UnOpOk, EvalAll, Keeps;
    match rv
    case Use(_) =>
      u := UseSim(c, t0, e, env, mem, rv, ty, v, t);
      KeepsMem(t, u, e.next);
    case Binary(op, l, r) =>
      var s := BinTy(env, l, r).value;
      var x, y := EvalOperand(env, mem, l, s).value, EvalOperand(env, mem, r, s).value;
      u := BinarySim(c, t0, e, env, mem, op, l, r, s, x, y, v, t);
      KeepsMem(t, u, e.next);
    case Unary(op, o) =>
      u := UnarySim(c, t0, e, env, mem, op, o, ty, EvalOperand(env, mem, o, ty).value, v, t);
      KeepsMem(t, u, e.next);
    case Ref(p) =>
      PointerEnc(PlaceAddr(env, mem, p).value, ty);
      u := PlaceOk(c, t0, e, env, mem, p, t);
      KeepsMem(t, u, e.next);
    case Read(_) =>
      u := ReadRvalueSim(c, t0, e, env, mem, rv, ty, v, t);
      KeepsMem(t, u, e.next);
    case Cast(_, _) =>
      u := CastRvalueSim(c, t0, e, env, mem, rv, ty, v, t);
      KeepsMem(t, u, e.next);
    case Aggregate(os) =>
      u := AggregateSim(c, t0, e, env, mem, os, ty, v, t);
  }

  lemma UseSim(c: Code, t0: TState, e: Em, env: Env, mem: Mem, rv: Rvalue, ty: Ty, v: Val, t: TState)
    returns (u: TState)
    requires rv.Use?
    requires Ready(e) && RvalueOk(env, rv, ty) && Within(EmitRvalue(env, e, rv, ty).0, c) && Sim(c, t0, e, t)
    requires MemRel(env, mem, t.mem, c.scratch) && EvalRvalue(env, mem, rv, ty) == Some(v) && ValOk(v, Leaves(ty))
    ensures var r := EmitRvalue(env, e, rv, ty);
            Sim(c, t0, r.0, u) && Keeps(t, u, e.next) && Known(u, r.1, Enc(v, Leaves(ty)), r.0.next)
  {
    MemRelOk(env, mem, t.mem, c.scratch);
    hide Within, Sim, Known, Ready, Grows, MemRel, MemOk, ValOk, Enc, Leaves, OperandOk, EvalOperand, EmitOperand,
         EmitCastOf, EmitRead, EmitPlace, PlaceAddr, Load, CastSem, CastOk, Keeps;
    var o := rv.o;
    if OperandOk(env, o, ty) {
      u := OperandValue(c, t0, e, env, mem, o, ty, v, t);
    } else {
      CastableInts(env, o, ty);
      var src := OperandTy(env, o).value;
      u := CastOfSim(c, t0, e, env, mem, o, src, ty, EvalOperand(env, mem, o, src).value, v, t);
    }
  }

  lemma ReadRvalueSim(c: Code, t0: TState, e: Em, env: Env, mem: Mem, rv: Rvalue, ty: Ty, v: Val, t: TState)
    returns (u: TState)
    requires rv.Read?
    requires Ready(e) && RvalueOk(env, rv, ty) && Within(EmitRvalue(env, e, rv, ty).0, c) && Sim(c, t0, e, t)
    requires MemRel(env, mem, t.mem, c.scratch) && EvalRvalue(env, mem, rv, ty) == Some(v) && ValOk(v, Leaves(ty))
    ensures var r := EmitRvalue(env, e, rv, ty);
            Sim(c, t0, r.0, u) && Keeps(t, u, e.next) && Known(u, r.1, Enc(v, Leaves(ty)), r.0.next)
  {
    MemRelOk(env, mem, t.mem, c.scratch);
    hide Within, Sim, Known, Ready, Grows, MemRel, MemOk, ValOk, Enc, Leaves, OperandOk, EvalOperand, EmitOperand,
         EmitCastOf, EmitRead, EmitPlace, PlaceAddr, Load, CastSem, CastOk, Keeps;
    var src := OperandTy(env, rv.o).value;
    CopyOk(env, rv.o);
    ReadParts(env, mem, rv.o, ty);
    u := ReadSim(c, t0, e, env, mem, rv.o, src, ty, EvalOperand(env, mem, rv.o, src).value[0].a, v, t);
  }

  lemma CastRvalueSim(c: Code, t0: TState, e: Em, env: Env, mem: Mem, rv: Rvalue, ty: Ty, v: Val, t: TState)
    returns (u: TState)
    requires rv.Cast?
    requires Ready(e) && RvalueOk(env, rv, ty) && Within(EmitRvalue(env, e, rv, ty).0, c) && Sim(c, t0, e, t)
    requires MemRel(env, mem, t.mem, c.scratch) && EvalRvalue(env, mem, rv, ty) == Some(v) && ValOk(v, Leaves(ty))
    ensures var r := EmitRvalue(env, e, rv, ty);
            Sim(c, t0, r.0, u) && Keeps(t, u, e.next) && Known(u, r.1, Enc(v, Leaves(ty)), r.0.next)
  {
    MemRelOk(env, mem, t.mem, c.scratch);
    hide Within, Sim, Known, Ready, Grows, MemRel, MemOk, ValOk, Enc, Leaves, OperandOk, EvalOperand, EmitOperand,
         EmitCastOf, EmitRead, EmitPlace, PlaceAddr, Load, CastSem, CastOk, Keeps;
    var src := OperandTy(env, rv.o).value;
    CopyOk(env, rv.o);
    if CastOk(src, rv.target) {
      u := CastOfSim(c, t0, e, env, mem, rv.o, src, rv.target, EvalOperand(env, mem, rv.o, src).value, v, t);
    } else {
      ArrayCast(src, rv.target);
      PointerEnc(PlaceAddr(env, mem, rv.o.place).value, ty);
      u := PlaceOk(c, t0, e, env, mem, rv.o.place, t);
    }
  }

  lemma CastableInts(env: Env, o: Operand, ty: Ty)
    requires RvalueOk(env, Use(o), ty) && !OperandOk(env, o, ty)
    ensures OperandTy(env, o).Some? && OperandOk(env, o, OperandTy(env, o).value) && CastOk(OperandTy(env, o).value, ty)
  {
  }

  lemma CopyOk(env: Env, o: Operand)
    requires OperandTy(env, o).Some?
    ensures o.Copy? && OperandOk(env, o, OperandTy(env, o).value) && PlaceTy(env, o.place).Some?
  {
  }

  lemma ArrayCast(src: Ty, target: Ty)
    requires !CastOk(src, target) && (CastOk(src, target) || (src.Array? && target.IsPointer()))
    ensures target.IsPointer()
  {
  }

  lemma PointerEnc(a: Addr, ty: Ty)
    requires ty.IsPointer()
    ensures Leaves(ty) == [LPtr] && Enc([SPtr(a)], Leaves(ty)) == [CPtr(a)]
  {
    EncPtr(a);
  }

  lemma ReadParts(env: Env, mem: Mem, o: Operand, ty: Ty)
    requires MemOk(env, mem) && RvalueOk(env, Read(o), ty) && EvalRvalue(env, mem, Read(o), ty).Some?
    requires OperandOk(env, o, OperandTy(env, o).value)
    ensures var x := EvalOperand(env, mem, o, OperandTy(env, o).value);
            x.Some? && |x.value| == 1 && x.value[0].SPtr? && x == Some([SPtr(x.value[0].a)])
            && EvalRvalue(env, mem, Read(o), ty) == Load(env, mem, x.value[0].a, ty)
  {
    hide MemOk, Load;
    var x := EvalOperand(env, mem, o, OperandTy(env, o).value).value;
    assert x == [x[0]];
  }

  // ----- statements -----

  lemma AssignSim(c: Code, t0: TState, e: Em, env: Env, mem: Mem, p: Place, rv: Rvalue, ty: Ty, v: Val, m: Mem,
      t: TState)
    returns (u: TState)
    requires Ready(e) && PlaceTy(env, p) == Some(ty) && RvalueOk(env, rv, ty)
    requires Within(EmitAssign(env, e, p, rv, ty), c) && Sim(c, t0, e, t) && MemRel(env, mem, t.mem, c.scratch)
    requires EvalRvalue(env, mem, rv, ty) == Some(v) && ValOk(v, Leaves(ty)) && PlaceAddr(env, mem, p).Some?
    requires Store(env, mem, PlaceAddr(env, mem, p).value, ty, v) == Some(m)
    ensures Sim(c, t0, EmitAssign(env, e, p, rv, ty), u) && MemRel(env, m, u.mem, c.scratch)
  {
    var (e1, x) := EmitRvalue(env, e, rv, ty);
    var (e2, a) := EmitPlace(env, e1, p);
    var f := Push(e2, StoreCells(a, x, Size(ty)));
    assert EmitAssign(env, e, p, rv, ty) == f by {
      hide Push, EmitRvalue, EmitPlace;
    }
    hide *;
    WithinTrans(e2, f, c); WithinTrans(e1, e2, c);
    GrowsNext(e1, e2);
    ValLen(v, Leaves(ty));
    SizeIs(ty);
    MemRelOk(env, mem, t.mem, c.scratch);
    var cells := Enc(v, Leaves(ty));
    var s1 := RvalueSim(c, t0, e, env, mem, rv, ty, v, t);
    var s2 := PlaceOk(c, t0, e1, env, mem, p, s1);
    KeepsMem(s1, s2, e1.next);
    KnownKept(s1, s2, e1.next, x, cells, e2.next);
    var addr := PlaceAddr(env, mem, p).value;
    KnownAddr(s2, a, addr, e2.next);
    KnownEval(s2, x, cells, e2.next);
    StoreRel(env, mem, s2.mem, c.scratch, addr, ty, v);
    u := StoreOk(c, t0, e2, a, x, addr, cells, s2);
  }

  lemma StmtSim(c: Code, t0: TState, e: Em, env: Env, mem: Mem, s: Stmt, m: Mem, t: TState) returns (u: TState)
    requires Ready(e) && StmtOk(env, s) && Within(EmitStmt(env, e, s), c) && Sim(c, t0, e, t)
    requires MemRel(env, mem, t.mem, c.scratch) && ExecStmt(env, mem, s) == Some(m)
    ensures Sim(c, t0, EmitStmt(env, e, s), u) && MemRel(env, m, u.mem, c.scratch)
  {
    MemRelOk(env, mem, t.mem, c.scratch);
    hide Within, Sim, Ready, Grows, MemRel, MemOk, ValOk, Leaves, EvalOperand, EmitOperand, PlaceAddr, Store,
         EvalRvalue, EmitAssign, RvalueOk, PlaceTy, Keeps;
    match s
    case Nop =>
      u := t;
    case Discard(o) =>
      if o.Copy? && !PlaceTy(env, o.place).value.Void? {
        var ty := PlaceTy(env, o.place).value;
        u := OperandValue(c, t0, e, env, mem, o, ty, EvalOperand(env, mem, o, ty).value, t);
        KeepsMem(t, u, e.next);
      } else {
        u := t;
      }
    case Assign(p, rv) =>
      var ty := PlaceTy(env, p).value;
      if ty.Void? {
        u := t;
      } else {
        EvalRvalueOk(env, mem, rv, ty);
        u := AssignSim(c, t0, e, env, mem, p, rv, ty, EvalRvalue(env, mem, rv, ty).value, m, t);
      }
  }

  lemma {:induction false} StmtsSim(c: Code, t0: TState, e: Em, env: Env, mem: Mem, ss: seq<Stmt>, m: Mem, t: TState)
    returns (u: TState)
    requires Ready(e) && (forall k :: 0 <= k < |ss| ==> StmtOk(env, ss[k])) && Within(EmitStmts(env, e, ss), c)
    requires Sim(c, t0, e, t)
    requires MemRel(env, mem, t.mem, c.scratch) && ExecStmts(env, mem, ss) == Some(m)
    ensures Sim(c, t0, EmitStmts(env, e, ss), u) && MemRel(env, m, u.mem, c.scratch)
    decreases |ss|
  {
    MemRelOk(env, mem, t.mem, c.scratch);
    hide Within, Sim, Ready, Grows, MemRel, MemOk, StmtOk, ExecStmt, EmitStmt;
    if ss == [] {
      u := t;
    } else {
      var e1 := EmitStmt(env, e, ss[0]);
      WithinTrans(e1, EmitStmts(env, e1, ss[1..]), c);
      var m1 := ExecStmt(env, mem, ss[0]).value;
      var s := StmtSim(c, t0, e, env, mem, ss[0], m1, t);
      u := StmtsSim(c, t0, e1, env, m1, ss[1..], m, s);
    }
  }

  // ----- whole functions -----

  /** A source state and the target state that stands for it: the same block, past what the entry block
      stores on entry, with every root encoded; or both finished with the same result. */
  ghost predicate Match(f: Func, c: Code, s: State, t: TState) {
    if s.AtBlock? then
      && t.Running? && s.block < |f.blocks|
      && t.block == s.block && t.pc == |Prologue(f, s.block)|
      && MemRel(f.env, s.mem, t.mem, c.scratch)
    else
      && t.Halted? && ValOk(s.ret, Leaves(f.retTy)) && t.ret == Enc(s.ret, Leaves(f.retTy))
      && MemRel(f.env, s.mem, t.mem, c.scratch)
  }

  /** The finished code holds block `b`, emitted after its prologue, under its own index. */
  ghost predicate HasBlock(f: Func, c: Code, b: nat)
    requires FuncOk(f) && b < |f.blocks|
  {
    exists e: Em :: HasBlockFrom(f, c, b, e)
  }

  ghost predicate HasBlockFrom(f: Func, c: Code, b: nat, e: Em)
    requires FuncOk(f) && b < |f.blocks|
  {
    && Ready(e) && e.cur == b && e.blocks[b] == TBlock([], Prologue(f, b), Open)
    && Within(EmitBlock(f, e, f.blocks[b]), c)
  }

  lemma WithinCode(e: Em, r: Em, c: Code)
    requires Within(e, CodeOf(r)) && Within(r, c)
    ensures Within(e, c)
  {
    forall b | 0 <= b < |e.blocks| ensures BlockLe(e.blocks[b], c.blocks[b]) {
      assert BlockLe(e.blocks[b], r.blocks[b]) && BlockLe(r.blocks[b], c.blocks[b]);
    }
  }

  lemma {:induction false} BlocksHeld(f: Func, e: Em, k: nat)
    requires FuncOk(f) && k <= |f.blocks| && Pending(f, e, k)
    ensures var c := CodeOf(EmitBlocks(f, e, k));
            Within(e, c) && forall b :: k <= b < |f.blocks| ==> HasBlock(f, c, b)
    decreases |f.blocks| - k
  {
    hide EmitBlock, FuncOk, Grows, Within;
    var c := CodeOf(EmitBlocks(f, e, k));
    if k == |f.blocks| {
      WithinSelf(e);
    } else {
      BlockOkOf(f, k);
      var e0 := e.(cur := k);
      var e1 := EmitBlock(f, e0, f.blocks[k]);
      PendingNext(f, e0, e1, k);
      BlocksHeld(f, e1, k + 1);
      GrowsIsWithin(e0, e1);
      WithinCode(e0, e1, c);
      WithinCur(e, k, c);
      PendingBlock(f, e, k);
      assert HasBlockFrom(f, c, k, e0);
    }
  }

  lemma WithinCur(e: Em, k: nat, c: Code)
    requires Within(e.(cur := k), c)
    ensures Within(e, c)
  {
  }

  /** Where the builder stands before block `b`, the machine stands when it starts the block. */
  lemma BlockStart(f: Func, c: Code, b: nat, e: Em, t: TState)
    requires FuncOk(f) && b < |f.blocks| && HasBlockFrom(f, c, b, e)
    requires t.Running? && t.block == b && t.pc == |Prologue(f, b)|
    ensures Sim(c, t, e, t)
  {
    hide EmitBlock, FuncOk, Within, Prologue;
    ReachesRefl(c.blocks, t);
  }

  lemma TermReached(c: Code, t0: TState, e: Em, y: Term, t: TState, u: TState)
    requires Ready(e) && Sim(c, t0, e, t) && Within(SetTerm(e, y), c) && !y.Open?
    requires StepTerm(c.blocks, t, y) == Some(u)
    ensures Reaches(c.blocks, t0, u, 1)
  {
    var g := SetTerm(e, y);
    assert BlockLe(g.blocks[e.cur], c.blocks[e.cur]);
    ReachesStep(c.blocks, t0, t, u, 0);
  }

  /** What the operand of a terminator must hold when the terminator is executed. */
  ghost predicate TermReady(f: Func, mem: Mem, x: Terminator, y: Term, t: TState, n: nat)
    requires FuncOk(f) && TermOk(f, x) && MemOk(f.env, mem)
  {
    match x
    case SwitchInt(d, cases, otherwise) =>
      var ty := PlaceTy(f.env, d).value;
      && PlaceAddr(f.env, mem, d).Some?
      && var v := Load(f.env, mem, PlaceAddr(f.env, mem, d).value, ty);
         && v.Some? && y.Switch? && Known(t, y.v, Enc(v.value, Leaves(ty)), n)
    case Return(o) =>
      var v := EvalOperand(f.env, mem, o, f.retTy);
      v.Some? && y.Ret? && Known(t, y.v, Enc(v.value, Leaves(f.retTy)), n)
    case _ => true
  }

  lemma TermCode(f: Func, c: Code, t0: TState, e: Em, mem: Mem, x: Terminator, s: State, t: TState) returns (u: TState)
    requires FuncOk(f) && Ready(e) && TermOk(f, x) && Sim(c, t0, e, t) && MemRel(f.env, mem, t.mem, c.scratch)
    requires Within(SetTerm(EmitTerm(f, e, x).0, EmitTerm(f, e, x).1), c) && ExecTerm(f, mem, x) == Some(s)
    ensures var (e1, y) := EmitTerm(f, e, x);
            Sim(c, t0, e1, u) && MemRel(f.env, mem, u.mem, c.scratch) && TermReady(f, mem, x, y, u, e1.next)
  {
    MemRelOk(f.env, mem, t.mem, c.scratch);
    hide FuncOk, Within, Sim, Ready, Grows, MemRel, MemOk, EmitLoad, EmitOperand, PlaceTy, PlaceAddr, Load,
         EvalOperand, OperandOk,
         Known, SetTerm, Enc, Leaves, ValOk, SwitchTarget, CasePatterns, Keeps, JumpOk;
    var (e1, y) := EmitTerm(f, e, x);
    WithinTrans(e1, SetTerm(e1, y), c);
    match x
    case SwitchInt(d, cases, otherwise) =>
      var ty := PlaceTy(f.env, d).value;
      var v := Load(f.env, mem, PlaceAddr(f.env, mem, d).value, ty).value;
      ValLen(v, Leaves(ty));
      u := LoadPlaceOk(c, t0, e, f.env, mem, d, ty, v, t);
      KeepsMem(t, u, e.next);
    case Return(o) =>
      var v := EvalOperand(f.env, mem, o, f.retTy).value;
      ValLen(v, Leaves(f.retTy));
      u := OperandValue(c, t0, e, f.env, mem, o, f.retTy, v, t);
      KeepsMem(t, u, e.next);
    case _ =>
      u := t;
  }

  // ----- jumps -----

  lemma NoPhis(f: Func, c: Code, b: nat)
    requires FuncOk(f) && b < |f.blocks| && HasBlock(f, c, b)
    ensures b < |c.blocks| && c.blocks[b].phis == []
  {
    BlockOkOf(f, b);
    hide EmitBlock, FuncOk;
    var e: Em :| HasBlockFrom(f, c, b, e);
    var r := EmitBlock(f, e, f.blocks[b]);
    assert BlockLe(r.blocks[b], c.blocks[b]);
  }

  /** Every source block is entered without phi nodes, at its first statement. */
  lemma JumpSim(f: Func, c: Code, from: nat, b: nat, mem: Mem, regs: Regs, tmem: TMem) returns (u: TState)
    requires FuncOk(f) && JumpOk(f, b) && MemRel(f.env, mem, tmem, c.scratch) && HasBlock(f, c, b)
    ensures Enter(c.blocks, from, b, regs, tmem) == Some(u) && Match(f, c, AtBlock(b, mem), u)
  {
    NoPhis(f, c, b);
    hide MemRel, HasBlock, FuncOk;
    u := Running(b, 0, regs + map[], tmem);
  }

  /** The switch on the pattern of the discriminant takes the case of its value. */
  lemma {:induction false} FindCaseOk(ty: Ty, disc: Scalar, w: Width, n: int, cases: seq<(nat, nat)>, otherwise: nat)
    requires (ty.Int? || ty.Bool?) && w == SwitchWidth(ty) && disc != SUndef && ScalarOk(disc, Leaves(ty)[0])
    requires EncS(disc, Leaves(ty)[0]) == Bits(w, n) && n >= 0
    ensures FindCase(CasePatterns(w, cases), n, otherwise) == SwitchTarget(ty, disc, cases, otherwise)
    decreases |cases|
  {
    if cases != [] {
      FindCaseOk(ty, disc, w, n, cases[1..], otherwise);
      assert CasePatterns(w, cases)[1..] == CasePatterns(w, cases[1..]);
      CaseAgrees(ty, disc, w, n, cases[0].0);
      hide CaseMatches, Pow2, EncS, ScalarOk;
    }
  }

  lemma CaseAgrees(ty: Ty, disc: Scalar, w: Width, n: int, v: nat)
    requires (ty.Int? || ty.Bool?) && w == SwitchWidth(ty) && disc != SUndef && ScalarOk(disc, Leaves(ty)[0])
    requires EncS(disc, Leaves(ty)[0]) == Bits(w, n)
    ensures (v % Pow2(64)) % Pow2(w) == n <==> CaseMatches(ty, v, disc)
  {
    if ty.Int? {
      CaseOk(w, ty.signed, v, disc.n);
      IntDisc(ty, disc);
      hide *;
      IntCase(ty, v, disc);
    } else {
      BoolCase(v);
      BoolDisc(ty, disc);
      hide *;
      BoolCaseMatch(ty, v, disc);
    }
  }

  lemma IntDisc(ty: Ty, disc: Scalar)
    requires ty.Int? && disc != SUndef && ScalarOk(disc, Leaves(ty)[0])
    ensures SwitchWidth(ty) == ty.bits && EncS(disc, Leaves(ty)[0]) == Bits(ty.bits, disc.n % Pow2(ty.bits))
  {
    hide Pow2, InRange;
  }

  lemma IntCase(ty: Ty, v: nat, disc: Scalar)
    requires ty.Int? && disc.SInt?
    ensures CaseMatches(ty, v, disc) <==> disc.n == Wrap(v, ty.bits, ty.signed)
  {
    hide Wrap;
  }

  lemma BoolDisc(ty: Ty, disc: Scalar)
    requires ty.Bool? && disc != SUndef && ScalarOk(disc, Leaves(ty)[0])
    ensures SwitchWidth(ty) == 1 && EncS(disc, Leaves(ty)[0]) == Bits(1, if disc.b then 1 else 0)
  {
    hide Pow2;
  }

  lemma BoolCaseMatch(ty: Ty, v: nat, disc: Scalar)
    requires ty.Bool? && disc.SBool?
    ensures CaseMatches(ty, v, disc) <==> disc.b == (v % 2 == 1)
  {
  }

  lemma BoolCase(v: nat)
    ensures (v % Pow2(64)) % Pow2(1) == v % 2
  {
    hide *;
    Pow2Add(1, 63);
    ModOfMod(v, Pow2(1), Pow2(63));
    OneBit();
  }

  lemma OneBit()
    ensures Pow2(1) == 2
  {
    assert Pow2(0) == 1;
  }

  lemma {:induction false} SwitchTargetOk(f: Func, ty: Ty, disc: Scalar, cases: seq<(nat, nat)>, otherwise: nat)
    requires (ty.Int? || ty.Bool?) && JumpOk(f, otherwise) && forall k :: 0 <= k < |cases| ==> JumpOk(f, cases[k].1)
    ensures JumpOk(f, SwitchTarget(ty, disc, cases, otherwise))
    decreases |cases|
  {
    if cases != [] {
      SwitchTargetOk(f, ty, disc, cases[1..], otherwise);
    }
  }

  lemma SwitchSim(f: Func, c: Code, mem: Mem, d: Place, cases: seq<(nat, nat)>, otherwise: nat, v: Val, o: Opnd,
      t: TState, n: nat)
    returns (u: TState)
    requires FuncOk(f) && TermOk(f, SwitchInt(d, cases, otherwise)) && t.Running?
    requires MemRel(f.env, mem, t.mem, c.scratch)
    requires var ty := PlaceTy(f.env, d).value;
             ValOk(v, Leaves(ty)) && v[0] != SUndef && Known(t, o, Enc(v, Leaves(ty)), n)
    requires forall b :: 0 <= b < |f.blocks| ==> HasBlock(f, c, b)
    ensures var ty := PlaceTy(f.env, d).value;
            && StepTerm(c.blocks, t, Switch(o, otherwise, CasePatterns(SwitchWidth(ty), cases))) == Some(u)
            && Match(f, c, AtBlock(SwitchTarget(ty, v[0], cases, otherwise), mem), u)
  {
    hide MemRel, HasBlock, Match, Enter, EncS, SwitchTarget, CasePatterns, Known, ValOk, Leaves, Enc, SwitchWidth, Pow2,
         Size, FuncOk;
    var ty := PlaceTy(f.env, d).value;
    var w := SwitchWidth(ty);
    SwitchCell(f, d, cases, otherwise, v);
    var cell := EncS(v[0], Leaves(ty)[0]);
    KnownEval(t, o, Enc(v, Leaves(ty)), n);
    FindCaseOk(ty, v[0], w, cell.n, cases, otherwise);
    SwitchTargetOk(f, ty, v[0], cases, otherwise);
    var b := SwitchTarget(ty, v[0], cases, otherwise);
    u := JumpSim(f, c, t.block, b, mem, t.regs, t.mem);
  }

  /** The operand of a switch is one pattern of the switch's width. */
  lemma SwitchCell(f: Func, d: Place, cases: seq<(nat, nat)>, otherwise: nat, v: Val)
    requires FuncOk(f) && TermOk(f, SwitchInt(d, cases, otherwise))
    requires ValOk(v, Leaves(PlaceTy(f.env, d).value)) && v[0] != SUndef
    ensures var ty := PlaceTy(f.env, d).value;
            && |v| == |Leaves(ty)| == 1 && ScalarOk(v[0], Leaves(ty)[0])
            && var cell := EncS(v[0], Leaves(ty)[0]);
            Enc(v, Leaves(ty)) == [cell] && cell.Bits? && cell.w == SwitchWidth(ty) && 0 <= cell.n < Pow2(cell.w)
  {
    var ty := PlaceTy(f.env, d).value;
    assert ScalarOk(v[0], Leaves(ty)[0]);
  }

  lemma TermJump(f: Func, c: Code, e: Em, mem: Mem, x: Terminator, s: State, t: TState) returns (u: TState)
    requires FuncOk(f) && Ready(e) && TermOk(f, x) && t.Running? && MemRel(f.env, mem, t.mem, c.scratch)
    requires TermReady(f, mem, x, EmitTerm(f, e, x).1, t, EmitTerm(f, e, x).0.next) && ExecTerm(f, mem, x) == Some(s)
    requires forall b :: 0 <= b < |f.blocks| ==> HasBlock(f, c, b)
    ensures StepTerm(c.blocks, t, EmitTerm(f, e, x).1) == Some(u) && Match(f, c, s, u)
  {
    MemRelOk(f.env, mem, t.mem, c.scratch);
    hide FuncOk, Grows, MemRel, MemOk, EmitLoad, EmitOperand, PlaceAddr, PlaceTy, Load, EvalOperand, OperandOk,
         SwitchTarget, CasePatterns,
         HasBlock, Enter, Known, Enc, Leaves, ValOk;
    var y := EmitTerm(f, e, x).1;
    var n := EmitTerm(f, e, x).0.next;
    match x
    case Goto(b) =>
      hide Match;
      u := JumpSim(f, c, t.block, b, mem, t.regs, t.mem);
    case SwitchInt(d, cases, otherwise) =>
      hide Match;
      var v := Load(f.env, mem, PlaceAddr(f.env, mem, d).value, PlaceTy(f.env, d).value).value;
      u := SwitchSim(f, c, mem, d, cases, otherwise, v, y.v, t, n);
    case Return(o) =>
      var v := EvalOperand(f.env, mem, o, f.retTy).value;
      KnownEval(t, y.v, Enc(v, Leaves(f.retTy)), n);
      u := Halted(Enc(v, Leaves(f.retTy)), t.mem);
    case ReturnVoid =>
      EmptyResult(f.retTy);
      u := Halted([], t.mem);
    case Unreachable =>
      u := t;
  }

  lemma EmptyResult(ty: Ty)
    requires ty.Void?
    ensures ValOk([], Leaves(ty)) && Enc([], Leaves(ty)) == []
  {
  }

  // ----- main results -----

  /** One block of the source is one or more steps of the emitted code. */
  lemma BlockSim(f: Func, c: Code, s: State, s': State, t: TState) returns (u: TState)
    requires FuncOk(f) && c == EmitFunction(f) && StateOk(f, s) && Match(f, c, s, t) && Step(f, s) == Some(s')
    ensures Reaches(c.blocks, t, u, 1) && Match(f, c, s', u)
  {
    hide *;
    MatchRunning(f, c, s, s', t);
    var b := s.block;
    var blk := f.blocks[b];
    var e := AllBlocks(f, c, b);
    BlockStart(f, c, b, e, t);
    BlockCode(f, c, b, e);
    BlockOkOf(f, b);
    var e1 := EmitStmts(f.env, e, blk.stmts);
    var (e2, y) := EmitTerm(f, e1, blk.term);
    WithinTrans(e2, SetTerm(e2, y), c);
    WithinTrans(e1, e2, c);
    var m := StepParts(f, s, s');
    var t1 := StmtsSim(c, t, e, f.env, s.mem, blk.stmts, m, t);
    MemRelOk(f.env, m, t1.mem, c.scratch);
    var t2 := TermCode(f, c, t, e1, m, blk.term, s', t1);
    SimRunning(c, t, e2, t2);
    u := TermJump(f, c, e1, m, blk.term, s', t2);
    TermReached(c, t, e2, y, t2, u);
  }

  lemma MatchRunning(f: Func, c: Code, s: State, s': State, t: TState)
    requires FuncOk(f) && StateOk(f, s) && Match(f, c, s, t) && Step(f, s) == Some(s')
    ensures s.AtBlock? && s.block < |f.blocks| && MemOk(f.env, s.mem)
    ensures t.Running? && t.block == s.block && t.pc == |Prologue(f, s.block)| && MemRel(f.env, s.mem, t.mem, c.scratch)
  {
    hide FuncOk, MemRel, MemOk, Prologue, ExecStmts, ExecTerm;
  }

  /** Where the builder stood when it filled block `b`. */
  lemma AllBlocks(f: Func, c: Code, b: nat) returns (e: Em)
    requires FuncOk(f) && c == EmitFunction(f) && b < |f.blocks|
    ensures HasBlockFrom(f, c, b, e) && Ready(e)
    ensures forall k :: 0 <= k < |f.blocks| ==> HasBlock(f, c, k)
  {
    BlocksHeld(f, Start(f), 0);
    assert EmitFunction(f) == CodeOf(EmitBlocks(f, Start(f), 0));
    hide EmitFunction, FuncOk, EmitBlock, Within, Prologue, EmitBlocks;
    assert HasBlock(f, c, b);
    e :| HasBlockFrom(f, c, b, e);
  }

  lemma BlockCode(f: Func, c: Code, b: nat, e: Em)
    requires FuncOk(f) && b < |f.blocks| && HasBlockFrom(f, c, b, e) && Ready(e)
    ensures (forall k :: 0 <= k < |f.blocks[b].stmts| ==> StmtOk(f.env, f.blocks[b].stmts[k]))
    ensures TermOk(f, f.blocks[b].term)
    ensures var e1 := EmitStmts(f.env, e, f.blocks[b].stmts);
            var (e2, y) := EmitTerm(f, e1, f.blocks[b].term);
            Within(SetTerm(e2, y), c)
  {
    BlockOkOf(f, b);
    hide EmitStmts, EmitTerm, SetTerm, Within, FuncOk, StmtOk, TermOk, Prologue;
  }

  lemma StepParts(f: Func, s: State, s': State) returns (m: Mem)
    requires FuncOk(f) && StateOk(f, s) && s.AtBlock? && Step(f, s) == Some(s')
    ensures MemOk(f.env, s.mem) && TermOk(f, f.blocks[s.block].term)
    ensures (forall k :: 0 <= k < |f.blocks[s.block].stmts| ==> StmtOk(f.env, f.blocks[s.block].stmts[k]))
    ensures ExecStmts(f.env, s.mem, f.blocks[s.block].stmts) == Some(m) && MemOk(f.env, m)
    ensures ExecTerm(f, m, f.blocks[s.block].term) == Some(s')
  {
    BlockOkOf(f, s.block);
    hide FuncOk, StmtOk, TermOk, MemOk, ExecStmts, ExecTerm;
    m := ExecStmts(f.env, s.mem, f.blocks[s.block].stmts).value;
  }

  /** `n` block steps of the source. */
  function StepN(f: Func, s: State, n: nat): Option<State>
    requires FuncOk(f) && StateOk(f, s)
    decreases n
  {
    if n == 0 then Some(s)
    else
      var s1 :- Step(f, s);
      StepKeepsOk(f, s, s1);
      StepN(f, s1, n - 1)
  }

  /** Steps keep memory typed and jumps stay inside the function. */
  lemma StepKeepsOk(f: Func, s: State, s': State)
    requires FuncOk(f) && StateOk(f, s) && Step(f, s) == Some(s')
    ensures StateOk(f, s')
  {
    BlockOkOf(f, s.block);
    var x := f.blocks[s.block].term;
    hide FuncOk, MemOk, ExecStmts, PlaceAddr, Load, EvalOperand, PlaceTy, OperandOk;
    if x.SwitchInt? {
      var ty := PlaceTy(f.env, x.disc).value;
      forall v: Scalar ensures JumpOk(f, SwitchTarget(ty, v, x.cases, x.otherwise)) {
        SwitchTargetOk(f, ty, v, x.cases, x.otherwise);
      }
    }
  }

  /** Every run of the source is matched by a run of the emitted code of at least as many steps. */
  lemma {:induction false} RunSim(f: Func, c: Code, s: State, s': State, n: nat, t: TState) returns (u: TState)
    requires FuncOk(f) && c == EmitFunction(f) && StateOk(f, s) && Match(f, c, s, t) && StepN(f, s, n) == Some(s')
    ensures Reaches(c.blocks, t, u, n) && Match(f, c, s', u)
    decreases n
  {
    hide FuncOk, StateOk, Match, Step, EmitFunction, Reaches;
    if n == 0 {
      u := t;
      ReachesRefl(c.blocks, t);
    } else {
      var s1 := Step(f, s).value;
      StepKeepsOk(f, s, s1);
      var t1 := BlockSim(f, c, s, s1, t);
      u := RunSim(f, c, s1, s', n - 1, t1);
      ReachesTrans(c.blocks, t, t1, u, 1, n - 1);
    }
  }

  // ----- entering a function -----

  /** Arguments for the parameters from `k` on. */
  predicate ArgsOk(f: Func, args: seq<Val>)
    requires FuncOk(f)
  {
    |args| == |f.params| && forall k :: 0 <= k < |args| ==> ValOk(args[k], Leaves(f.env.roots[f.params[k]]))
  }

  /** The memory in which the arguments from `k` on have been stored into their locals. */
  function WithParams(f: Func, mem: Mem, args: seq<Val>, k: nat): (m: Mem)
    requires FuncOk(f) && MemOk(f.env, mem) && ArgsOk(f, args) && k <= |args|
    ensures MemOk(f.env, m)
    decreases |args| - k
  {
    if k == |args| then mem
    else WithParams(f, mem[f.params[k] := args[k]], args, k + 1)
  }

  ghost predicate ArgRegs(f: Func, args: seq<Val>, regs: Regs)
    requires FuncOk(f) && ArgsOk(f, args)
  {
    forall k :: 0 <= k < |args| ==> k in regs && regs[k] == Enc(args[k], Leaves(f.env.roots[f.params[k]]))
  }

  lemma {:induction false} ParamStoreAt(f: Func, j: nat, k: nat)
    requires FuncOk(f) && j <= k < |f.params|
    ensures |ParamStores(f, j)| == |f.params| - j
    ensures ParamStores(f, j)[k - j] == StoreCells(RootPtr(f.params[k]), Reg(k), Size(f.env.roots[f.params[k]]))
    decreases |f.params| - j
  {
    if j < k {
      ParamStoreAt(f, j + 1, k);
    } else if j + 1 < |f.params| {
      ParamStoreAt(f, j + 1, j + 1);
    }
  }

  lemma WholeRootStore(env: Env, mem: Mem, tmem: TMem, scratch: seq<nat>, root: nat, v: Val)
    requires MemRel(env, mem, tmem, scratch) && root < |env.roots| && ValOk(v, Leaves(env.roots[root]))
    ensures var cells := Enc(v, Leaves(env.roots[root]));
            && LoadT(tmem, At(root, 0), |cells|).Some?
            && MemRel(env, mem[root := v], tmem[root := Splice(tmem[root], 0, cells)], scratch)
  {
    var cells := Enc(v, Leaves(env.roots[root]));
    assert Splice(tmem[root], 0, cells) == cells;
  }

  /** The entry block stores every argument before its first statement. */
  lemma {:induction false} PrologueSim(f: Func, c: Code, mem: Mem, args: seq<Val>, k: nat, t0: TState, t: TState)
    returns (u: TState)
    requires FuncOk(f) && HasBlock(f, c, 0) && ArgsOk(f, args) && k <= |args|
    requires t.Running? && t.block == 0 && t.pc == k && ArgRegs(f, args, t.regs) && MemRel(f.env, mem, t.mem, c.scratch)
    requires Reaches(c.blocks, t0, t, 0)
    ensures Reaches(c.blocks, t0, u, 0) && Match(f, c, AtBlock(0, WithParams(f, mem, args, k)), u)
    decreases |args| - k
  {
    hide *;
    if k == |args| {
      ParamsStored(f, c, mem, args, t);
      u := t;
    } else {
      var s := ParamStep(f, c, mem, args, k, t);
      ReachesStep(c.blocks, t0, t, s, 0);
      u := PrologueSim(f, c, mem[f.params[k] := args[k]], args, k + 1, t0, s);
      NextParam(f, mem, args, k, t);
    }
  }

  lemma NextParam(f: Func, mem: Mem, args: seq<Val>, k: nat, t: TState)
    requires FuncOk(f) && MemOk(f.env, mem) && ArgsOk(f, args) && k < |args|
    requires f.params[k] < |mem| && MemOk(f.env, mem[f.params[k] := args[k]])
    ensures WithParams(f, mem, args, k) == WithParams(f, mem[f.params[k] := args[k]], args, k + 1)
  {
    hide FuncOk, MemOk, ArgsOk;
  }

  /** With every argument stored, the entry block is past its prologue. */
  lemma ParamsStored(f: Func, c: Code, mem: Mem, args: seq<Val>, t: TState)
    requires FuncOk(f) && ArgsOk(f, args) && t.Running? && t.block == 0 && t.pc == |args|
    requires MemRel(f.env, mem, t.mem, c.scratch)
    ensures MemOk(f.env, mem) && Match(f, c, AtBlock(0, WithParams(f, mem, args, |args|)), t)
  {
    MemRelOk(f.env, mem, t.mem, c.scratch);
    if |args| > 0 {
      ParamStoreAt(f, 0, 0);
    }
    hide MemRel, MemOk, ParamStores;
  }

  /** One store of the prologue. */
  lemma ParamStep(f: Func, c: Code, mem: Mem, args: seq<Val>, k: nat, t: TState) returns (s: TState)
    requires FuncOk(f) && HasBlock(f, c, 0) && ArgsOk(f, args) && k < |args|
    requires t.Running? && t.block == 0 && t.pc == k && ArgRegs(f, args, t.regs)
    requires MemRel(f.env, mem, t.mem, c.scratch)
    ensures StepT(c.blocks, t) == Some(s)
    ensures s.Running? && s.block == 0 && s.pc == k + 1 && ArgRegs(f, args, s.regs)
    ensures k < |f.params| && MemOk(f.env, mem) && f.params[k] < |mem|
    ensures MemRel(f.env, mem[f.params[k] := args[k]], s.mem, c.scratch)
    ensures MemOk(f.env, mem[f.params[k] := args[k]])
  {
    var root, v := f.params[k], args[k];
    var cells := Enc(v, Leaves(f.env.roots[root]));
    PrologueHeld(f, c, k);
    WholeRootStore(f.env, mem, t.mem, c.scratch, root, v);
    MemRelOk(f.env, mem, t.mem, c.scratch);
    MemRelLen(f.env, mem);
    ValLen(v, Leaves(f.env.roots[root]));
    SizeIs(f.env.roots[root]);
    hide *;
    s := t.(pc := t.pc + 1, mem := t.mem[root := Splice(t.mem[root], 0, cells)]);
    RootStoreStep(c, root, Reg(k), cells, t, s);
    MemRelOk(f.env, mem[root := v], s.mem, c.scratch);
    SameRegs(f, args, t, s);
  }

  lemma SameRegs(f: Func, args: seq<Val>, t: TState, s: TState)
    requires FuncOk(f) && ArgsOk(f, args) && t.Running? && s.Running? && t.regs == s.regs && ArgRegs(f, args, t.regs)
    ensures ArgRegs(f, args, s.regs)
  {
  }

  lemma RootStoreStep(c: Code, root: nat, o: Opnd, cells: Cells, t: TState, s: TState)
    requires t.Running? && t.block < |c.blocks| && t.pc < |c.blocks[t.block].instrs|
    requires c.blocks[t.block].instrs[t.pc] == StoreCells(RootPtr(root), o, |cells|) && Eval(t.regs, o) == Some(cells)
    requires LoadT(t.mem, At(root, 0), |cells|).Some?
    requires s == t.(pc := t.pc + 1, mem := t.mem[root := Splice(t.mem[root], 0, cells)])
    ensures StepT(c.blocks, t) == Some(s)
  {
    hide Splice;
  }

  lemma MemRelLen(env: Env, mem: Mem)
    requires MemOk(env, mem)
    ensures |mem| == |env.roots|
  {
  }

  lemma PrologueHeld(f: Func, c: Code, k: nat)
    requires FuncOk(f) && HasBlock(f, c, 0) && k < |f.params|
    ensures |c.blocks| > 0 && k < |c.blocks[0].instrs|
    ensures c.blocks[0].instrs[k] == StoreCells(RootPtr(f.params[k]), Reg(k), Size(f.env.roots[f.params[k]]))
  {
    FuncHasBlocks(f);
    hide *;
    var e := EntryCode(f, c);
    EntryPrologue(f, k, e);
    HeldInstr(e, EmitBlock(f, e, f.blocks[0]), c, k);
  }

  lemma FuncHasBlocks(f: Func)
    requires FuncOk(f)
    ensures |f.blocks| > 0
  {
  }

  lemma EntryCode(f: Func, c: Code) returns (e: Em)
    requires FuncOk(f) && |f.blocks| > 0 && HasBlock(f, c, 0)
    ensures Ready(e) && (forall j :: 0 <= j < |f.blocks[0].stmts| ==> StmtOk(f.env, f.blocks[0].stmts[j]))
    ensures TermOk(f, f.blocks[0].term) && Grows(e, EmitBlock(f, e, f.blocks[0]))
    ensures Within(EmitBlock(f, e, f.blocks[0]), c)
    ensures e.cur == 0 && |e.blocks| > 0 && e.blocks[0] == TBlock([], Prologue(f, 0), Open)
  {
    BlockOkOf(f, 0);
    e :| HasBlockFrom(f, c, 0, e);
    hide EmitBlock, FuncOk, Prologue, Within;
  }

  lemma EntryPrologue(f: Func, k: nat, e: Em)
    requires FuncOk(f) && k < |f.params| && |e.blocks| > 0 && e.blocks[0] == TBlock([], Prologue(f, 0), Open)
    ensures k < |e.blocks[0].instrs|
    ensures e.blocks[0].instrs[k] == StoreCells(RootPtr(f.params[k]), Reg(k), Size(f.env.roots[f.params[k]]))
  {
    ParamStoreAt(f, 0, k);
    hide ParamStores, Size;
  }

  lemma HeldInstr(e: Em, r: Em, c: Code, k: nat)
    requires Grows(e, r) && Within(r, c) && 0 < |e.blocks| && k < |e.blocks[0].instrs|
    ensures |c.blocks| > 0 && k < |c.blocks[0].instrs| && c.blocks[0].instrs[k] == e.blocks[0].instrs[k]
  {
    assert BlockLe(r.blocks[0], c.blocks[0]);
    assert r.blocks[0].instrs[k] == e.blocks[0].instrs[k];
  }

  /** The function as a whole: called with encoded arguments on an encoded memory, the emitted code
      halts with the encoded result whenever the source returns, and in no other state. */
  lemma FunctionCorrect(f: Func, mem: Mem, args: seq<Val>, regs: Regs, tmem: TMem, n: nat, ret: Val, mem': Mem)
    returns (u: TState)
    requires FuncOk(f) && ArgsOk(f, args) && ArgRegs(f, args, regs)
    requires MemRel(f.env, mem, tmem, EmitFunction(f).scratch)
    requires StepN(f, AtBlock(0, WithParams(f, mem, args, 0)), n) == Some(Done(ret, mem'))
    ensures var g := EmitFunction(f).blocks; var start := Running(0, 0, regs, tmem);
            && Reaches(g, start, u, n)
            && ValOk(ret, Leaves(f.retTy)) && u == Halted(Enc(ret, Leaves(f.retTy)), u.mem)
            && MemRel(f.env, mem', u.mem, EmitFunction(f).scratch)
            && forall w: TState :: Reaches(g, start, w, 0) && w.Halted? ==> w == u
  {
    var c := EmitFunction(f);
    var start := Running(0, 0, regs, tmem);
    BlocksHeld(f, Start(f), 0);
    assert HasBlock(f, c, 0);
    ReachesRefl(c.blocks, start);
    var t := PrologueSim(f, c, mem, args, 0, start, start);
    var s := AtBlock(0, WithParams(f, mem, args, 0));
    hide EmitFunction, HasBlock, MemRel, FuncOk, Reaches, WithParams, StepN;
    u := RunSim(f, c, s, Done(ret, mem'), n, t);
    ReachesTrans(c.blocks, start, t, u, 0, n);
    ReachesWeak(c.blocks, start, u, n);
    forall w: TState | Reaches(c.blocks, start, w, 0) && w.Halted? ensures w == u {
      HaltsOnce(c.blocks, start, w, u);
    }
  }

  lemma ReachesWeak(g: Graph, s: TState, t: TState, k: nat)
    requires Reaches(g, s, t, k)
    ensures Reaches(g, s, t, 0)
  {
  }
}
