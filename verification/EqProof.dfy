/**
 The emitted comparison of two aggregates computes structural equality: recursively over members, and
 with a loop built from phi nodes over the elements of a slice.
 */
module EqProof {
  import opened Wrappers
  import opened Arith
  import opened Floats
  import opened Mir
  import opened BlockGraph
  import opened Emit
  import opened Encode

  /** Outside floats, the pattern of a scalar is that of another of its type only if they are the same. */
  lemma LeafCompare(l: Leaf, x: Scalar, y: Scalar)
    requires ScalarOk(x, l) && ScalarOk(y, l) && x != SUndef && y != SUndef && !l.LFloat?
    ensures EncS(x, l) == EncS(y, l) <==> x == y
  {
    if l.LInt? && x.n % Pow2(l.bits) == y.n % Pow2(l.bits) {
      PatternInjective(x.n, y.n, l.bits, l.signed);
    }
  }

  predicate IsLeafTy(ty: Ty) {
    ty.Int? || ty.Bool? || ty.Float? || ty.IsPointer()
  }

  lemma EqLeafOk(c: Code, t0: TState, e: Em, env: Env, mem: Mem, ty: Ty, l: Opnd, r: Opnd, a: Val, b: Val, t: TState)
    returns (u: TState)
    requires IsLeafTy(ty) && MemOk(env, mem) && ValOk(a, Leaves(ty)) && ValOk(b, Leaves(ty))
    requires Ready(e) && Within(EmitEq(e, ty, l, r).0, c) && Sim(c, t0, e, t)
    requires Known(t, l, Enc(a, Leaves(ty)), e.next) && Known(t, r, Enc(b, Leaves(ty)), e.next)
    requires SemEq(env, mem, ty, a, b).Some?
    ensures Sim(c, t0, EmitEq(e, ty, l, r).0, u) && Keeps(t, u, e.next)
    ensures Known(u, EmitEq(e, ty, l, r).1, BoolCell(SemEq(env, mem, ty, a, b).value), EmitEq(e, ty, l, r).0.next)
  {
    hide *;
    EmitEqLeafIs(e, ty, l, r);
    if ty.Float? {
      FloatLeaf(env, mem, ty, a, b);
      u := FcmpOk(c, t0, e, OEQ, l, r, ty.double, a[0].f, b[0].f, t);
    } else {
      u := PatternLeafOk(c, t0, e, env, mem, ty, l, r, a, b, t);
    }
  }

  lemma EmitEqLeafIs(e: Em, ty: Ty, l: Opnd, r: Opnd)
    requires Ready(e) && IsLeafTy(ty)
    ensures EmitEq(e, ty, l, r) == Def(e, if ty.Float? then Fcmp(e.next, OEQ, l, r) else Icmp(e.next, EQ, l, r))
    ensures EmitEq(e, ty, l, r).1 == Reg(e.next) && EmitEq(e, ty, l, r).0.next == e.next + 1
  {
    EmitEqLeaf(e, ty, l, r);
  }

  lemma FloatLeaf(env: Env, mem: Mem, ty: Ty, a: Val, b: Val)
    requires ty.Float? && MemOk(env, mem) && ValOk(a, Leaves(ty)) && ValOk(b, Leaves(ty))
    requires SemEq(env, mem, ty, a, b).Some?
    ensures |a| == |b| == |Leaves(ty)| == 1 && a[0].SFloat? && b[0].SFloat?
    ensures IsFloat(ty.double, a[0].f) && IsFloat(ty.double, b[0].f)
    ensures Enc(a, Leaves(ty)) == [Bits(FloatBits(ty.double), a[0].f)]
    ensures Enc(b, Leaves(ty)) == [Bits(FloatBits(ty.double), b[0].f)]
    ensures SemEq(env, mem, ty, a, b) == Some(FloatEq(ty.double, a[0].f, b[0].f))
    ensures EvalFPred(OEQ, ty.double, a[0].f, b[0].f) == FloatEq(ty.double, a[0].f, b[0].f)
  {
    hide MemOk, IsFloat, IsNaN, Key;
    assert ScalarOk(a[0], Leaves(ty)[0]) && ScalarOk(b[0], Leaves(ty)[0]);
  }

  lemma PatternLeafOk(c: Code, t0: TState, e: Em, env: Env, mem: Mem, ty: Ty, l: Opnd, r: Opnd, a: Val, b: Val,
      t: TState)
    returns (u: TState)
    requires IsLeafTy(ty) && !ty.Float? && MemOk(env, mem) && ValOk(a, Leaves(ty)) && ValOk(b, Leaves(ty))
    requires Ready(e) && Within(Def(e, Icmp(e.next, EQ, l, r)).0, c) && Sim(c, t0, e, t)
    requires Known(t, l, Enc(a, Leaves(ty)), e.next) && Known(t, r, Enc(b, Leaves(ty)), e.next)
    requires SemEq(env, mem, ty, a, b).Some?
    ensures Sim(c, t0, Def(e, Icmp(e.next, EQ, l, r)).0, u) && Keeps(t, u, e.next)
    ensures Known(u, Reg(e.next), BoolCell(SemEq(env, mem, ty, a, b).value), e.next + 1)
  {
    hide *;
    var x, y := LeafPatterns(env, mem, ty, a, b);
    if x.Bits? {
      u := IcmpOk(c, t0, e, EQ, l, r, x.w, x.n, y.n, t);
      EvalPredEq(x.w, x.n, y.n);
    } else {
      u := IcmpPtrOk(c, t0, e, EQ, l, r, x.a, y.a, t);
    }
  }

  /** The two values as single cells, which are equal exactly when the values are. */
  lemma LeafPatterns(env: Env, mem: Mem, ty: Ty, a: Val, b: Val) returns (x: Cell, y: Cell)
    requires IsLeafTy(ty) && !ty.Float? && MemOk(env, mem) && ValOk(a, Leaves(ty)) && ValOk(b, Leaves(ty))
    requires SemEq(env, mem, ty, a, b).Some?
    ensures |a| == |b| == |Leaves(ty)| && Enc(a, Leaves(ty)) == [x] && Enc(b, Leaves(ty)) == [y]
    ensures SemEq(env, mem, ty, a, b) == Some(x == y)
    ensures if x.Bits? then y.Bits? && x.w == y.w >= 1 && 0 <= x.n < Pow2(x.w) && 0 <= y.n < Pow2(y.w)
            else x.CPtr? && y.CPtr?
  {
    hide MemOk, InRange;
    assert ScalarOk(a[0], Leaves(ty)[0]) && ScalarOk(b[0], Leaves(ty)[0]);
    LeafCompare(Leaves(ty)[0], a[0], b[0]);
    x, y := EncS(a[0], Leaves(ty)[0]), EncS(b[0], Leaves(ty)[0]);
    if ty.Bool? {
      assert Pow2(1) == 2 * Pow2(0) == 2;
    }
    hide Pow2;
  }

  /** A closed loop over two slices: its first register, its head block, the block it is entered from,
      the registers that carry the next index and accumulator, and what it walks. */
  datatype Site = Site(base: nat, h: nat, from: nat, iNext: nat, accNext: nat, p: Addr, q: Addr, n: nat, lenEq: bool)
  {
    predicate In(c: Code) {
      && h + 2 < |c.blocks| && from < h && n < Pow2(PTR_BITS)
      && c.blocks[h] == ClosedHead(base, h, from, iNext, accNext)
      && c.blocks[h + 1].phis == [] && c.blocks[h + 2].phis == []
    }

    function Slot(s: TState, k: nat): Option<Cells>
      requires s.Running?
    {
      if base + k in s.regs then Some(s.regs[base + k]) else None
    }

    /** The registers set up before the loop. */
    predicate Ready(s: TState) {
      && s.Running?
      && Slot(s, 0) == Some([CPtr(p)])
      && Slot(s, 1) == Some([CPtr(q)])
      && Slot(s, 4) == Some(BoolCell(lenEq))
      && Slot(s, 5) == Some([Bits(PTR_BITS, n)])
    }

    /** In the loop, with `i` elements compared and their conjunction in the accumulator. */
    predicate InLoop(s: TState, i: nat, acc: bool) {
      Ready(s) && Slot(s, 6) == Some([Bits(PTR_BITS, i)]) && Slot(s, 7) == Some(BoolCell(acc))
    }

    predicate AtHead(s: TState, i: nat, acc: bool) {
      InLoop(s, i, acc) && s.block == h && s.pc == 0
    }
  }

  lemma InLoopKept(st: Site, s: TState, u: TState, i: nat, acc: bool, n: nat)
    requires st.InLoop(s, i, acc) && Keeps(s, u, n) && n >= st.base + 8
    ensures st.InLoop(u, i, acc)
  {
  }

  lemma InLoopKnown(st: Site, s: TState, i: nat, acc: bool, n: nat)
    requires st.InLoop(s, i, acc) && n >= st.base + 8
    ensures Known(s, Reg(st.base), [CPtr(st.p)], n) && Known(s, Reg(st.base + 1), [CPtr(st.q)], n)
    ensures Known(s, Reg(st.base + 4), BoolCell(st.lenEq), n)
    ensures Known(s, Reg(st.base + 6), [Bits(PTR_BITS, i)], n) && Known(s, Reg(st.base + 7), BoolCell(acc), n)
  {
  }

  /** The code before the loop reads pointers and lengths and settles how far to walk. */
  lemma PreludeOk(c: Code, t0: TState, e: Em, st: Site, l: Opnd, r: Opnd, x: int, y: int, t: TState) returns (u: TState)
    requires Ready(e) && Within(SlicePrelude(e, l, r), c) && Sim(c, t0, e, t) && e.next == st.base
    requires Known(t, l, [CPtr(st.p), Bits(PTR_BITS, x)], e.next)
    requires Known(t, r, [CPtr(st.q), Bits(PTR_BITS, y)], e.next)
    requires 0 <= x < Pow2(PTR_BITS) && 0 <= y < Pow2(PTR_BITS)
    requires st.lenEq == (x == y) && st.n == if x == y then x else 0
    ensures Sim(c, t0, SlicePrelude(e, l, r), u) && st.Ready(u) && Keeps(t, u, e.next)
  {
    hide *;
    var b := e.next;
    PreludeParts(e, l, r);
    var e4 := SliceExtracts(e, l, r);
    var e5 := Def(e4, Icmp(b + 4, EQ, Reg(b + 2), Reg(b + 3))).0;
    WithinTrans(e5, SlicePrelude(e, l, r), c); WithinTrans(e4, e5, c);
    var zero := Lit([Bits(PTR_BITS, 0)]);
    var t4 := ExtractsOk(c, t0, e, st, l, r, x, y, t);
    var t5 := IcmpOk(c, t0, e4, EQ, Reg(b + 2), Reg(b + 3), PTR_BITS, x, y, t4);
    EvalPredEq(PTR_BITS, x, y);
    KeepsTrans(t, t4, t5, b, b + 4);
    KnownKept(t4, t5, b + 4, Reg(b + 2), [Bits(PTR_BITS, x)], b + 5);
    KnownLit(t5, zero, b + 5);
    u := SelectOk(c, t0, e5, Reg(b + 4), Reg(b + 2), zero, x == y, [Bits(PTR_BITS, x)], [Bits(PTR_BITS, 0)], t5);
    KeepsTrans(t, t5, u, b, b + 5);
    PreludeReady(st, t4, t5, u);
  }

  lemma ExtractsOk(c: Code, t0: TState, e: Em, st: Site, l: Opnd, r: Opnd, x: int, y: int, t: TState)
    returns (u: TState)
    requires Ready(e) && Within(SliceExtracts(e, l, r), c) && Sim(c, t0, e, t) && e.next == st.base
    requires Known(t, l, [CPtr(st.p), Bits(PTR_BITS, x)], e.next)
    requires Known(t, r, [CPtr(st.q), Bits(PTR_BITS, y)], e.next)
    ensures Sim(c, t0, SliceExtracts(e, l, r), u) && Keeps(t, u, e.next)
    ensures Known(u, Reg(st.base), [CPtr(st.p)], st.base + 4) && Known(u, Reg(st.base + 1), [CPtr(st.q)], st.base + 4)
    ensures Known(u, Reg(st.base + 2), [Bits(PTR_BITS, x)], st.base + 4)
    ensures Known(u, Reg(st.base + 3), [Bits(PTR_BITS, y)], st.base + 4)
  {
    hide *;
    var b := e.next;
    var lv, rv := [CPtr(st.p), Bits(PTR_BITS, x)], [CPtr(st.q), Bits(PTR_BITS, y)];
    ExtractsParts(e, l, r);
    var e1 := Def(e, Extract(b, l, 0, 1)).0;
    var e2 := Def(e1, Extract(b + 1, r, 0, 1)).0;
    var e3 := Def(e2, Extract(b + 2, l, 1, 1)).0;
    WithinTrans(e3, SliceExtracts(e, l, r), c); WithinTrans(e2, e3, c); WithinTrans(e1, e2, c);
    var t1 := SlicePartOk(c, t0, e, l, st.p, x, 0, t);
    KnownKept(t, t1, b, r, rv, b + 1);
    var t2 := SlicePartOk(c, t0, e1, r, st.q, y, 0, t1);
    KeepsTrans(t, t1, t2, b, b + 1);
    KnownKept(t1, t2, b + 1, Reg(b), [CPtr(st.p)], b + 2);
    KnownKept(t, t2, b, l, lv, b + 2);
    var t3 := SlicePartOk(c, t0, e2, l, st.p, x, 1, t2);
    KeepsTrans(t, t2, t3, b, b + 2);
    KnownKept(t2, t3, b + 2, Reg(b), [CPtr(st.p)], b + 3);
    KnownKept(t2, t3, b + 2, Reg(b + 1), [CPtr(st.q)], b + 3);
    KnownKept(t, t3, b, r, rv, b + 3);
    u := SlicePartOk(c, t0, e3, r, st.q, y, 1, t3);
    KeepsTrans(t, t3, u, b, b + 3);
    KnownKept(t3, u, b + 3, Reg(b), [CPtr(st.p)], b + 4);
    KnownKept(t3, u, b + 3, Reg(b + 1), [CPtr(st.q)], b + 4);
    KnownKept(t3, u, b + 3, Reg(b + 2), [Bits(PTR_BITS, x)], b + 4);
  }

  lemma PreludeReady(st: Site, t4: TState, t5: TState, u: TState)
    requires Known(t4, Reg(st.base), [CPtr(st.p)], st.base + 4)
    requires Known(t4, Reg(st.base + 1), [CPtr(st.q)], st.base + 4)
    requires Keeps(t4, t5, st.base + 4) && Keeps(t5, u, st.base + 5)
    requires Known(t5, Reg(st.base + 4), BoolCell(st.lenEq), st.base + 5)
    requires Known(u, Reg(st.base + 5), [Bits(PTR_BITS, st.n)], st.base + 6)
    ensures st.Ready(u)
  {
    hide BoolCell;
  }

  lemma SlicePartOk(c: Code, t0: TState, e: Em, o: Opnd, p: Addr, n: int, k: nat, t: TState) returns (u: TState)
    requires Ready(e) && Within(Def(e, Extract(e.next, o, k, 1)).0, c) && Sim(c, t0, e, t) && k <= 1
    requires Known(t, o, [CPtr(p), Bits(PTR_BITS, n)], e.next)
    ensures Sim(c, t0, Def(e, Extract(e.next, o, k, 1)).0, u) && Keeps(t, u, e.next)
    ensures Known(u, Reg(e.next), if k == 0 then [CPtr(p)] else [Bits(PTR_BITS, n)], e.next + 1)
  {
    u := ExtractOk(c, t0, e, o, [CPtr(p), Bits(PTR_BITS, n)], k, 1, t);
  }

  lemma IncomingOf(inc: seq<(nat, Opnd)>, from: nat)
    requires |inc| == 2
    ensures Incoming(inc, from) == if inc[0].0 == from then Some(inc[0].1)
              else if inc[1].0 == from then Some(inc[1].1) else None
  {
    var tail := inc[1..];
    assert tail[0] == inc[1] && tail[1..] == [];
    assert Incoming(tail[1..], from) == None;
    assert Incoming(tail, from) == if inc[1].0 == from then Some(inc[1].1) else None;
  }

  /** Jumping to the loop head assigns both phi nodes at once: the start values on entry, the values
      computed by the body when the body jumps back. */
  lemma EnterHead(c: Code, t0: TState, e: Em, st: Site, t: TState, i: nat, acc: bool) returns (u: TState)
    requires st.In(c) && Sim(c, t0, e, t) && st.Ready(t)
    requires e.cur < |c.blocks| && c.blocks[e.cur].instrs == e.blocks[e.cur].instrs && c.blocks[e.cur].term == Br(st.h)
    requires || (e.cur == st.from && i == 0 && acc)
             || (e.cur == st.h + 1 && Known(t, Reg(st.accNext), BoolCell(acc), e.next) &&
                Known(t, Reg(st.iNext), [Bits(PTR_BITS, i)], e.next))
    ensures st.AtHead(u, i, acc) && Keeps(t, u, st.base) && Reaches(c.blocks, t0, u, 0)
  {
    hide *;
    var x, y := [Bits(PTR_BITS, i)], BoolCell(acc);
    SimParts(c, t0, e, t);
    HeadExists(c, st);
    if e.cur == st.from {
      TrueCell(acc);
    } else {
      KnownEval(t, Reg(st.accNext), y, e.next);
      KnownEval(t, Reg(st.iNext), x, e.next);
    }
    PhisGive(c, st, t, x, y);
    var tail: Regs := map[][st.base + 7 := y];
    var vals := tail[st.base + 6 := x];
    u := Running(st.h, 0, t.regs + vals, t.mem);
    BrStep(c, t, st.h, vals);
    ReachesStep(c.blocks, t0, t, u, 0);
    HeadEntered(st, t, i, acc, u);
  }

  lemma SimParts(c: Code, t0: TState, e: Em, t: TState)
    requires Sim(c, t0, e, t)
    ensures t.Running? && e.cur < |e.blocks| && t.block == e.cur && t.pc == |e.blocks[e.cur].instrs|
    ensures Reaches(c.blocks, t0, t, 0)
  {
    hide Reaches;
  }

  lemma HeadExists(c: Code, st: Site)
    requires st.In(c)
    ensures st.from < st.h < |c.blocks|
  {
  }

  lemma TrueCell(b: bool)
    requires b
    ensures BoolCell(b) == BoolCell(true)
  {
  }

  lemma BrStep(c: Code, t: TState, h: nat, vals: Regs)
    requires t.Running? && t.block < |c.blocks| && h < |c.blocks|
    requires t.pc == |c.blocks[t.block].instrs| && c.blocks[t.block].term == Br(h)
    requires PhiValues(c.blocks[h].phis, t.block, t.regs) == Some(vals)
    ensures StepT(c.blocks, t) == Some(Running(h, 0, t.regs + vals, t.mem))
  {
    hide PhiValues;
  }

  lemma HeadEntered(st: Site, t: TState, i: nat, acc: bool, u: TState)
    requires st.Ready(t)
    requires var tail: Regs := map[][st.base + 7 := BoolCell(acc)];
             u == Running(st.h, 0, t.regs + tail[st.base + 6 := [Bits(PTR_BITS, i)]], t.mem)
    ensures st.AtHead(u, i, acc) && Keeps(t, u, st.base)
  {
    hide BoolCell;
  }

  /** The two phi nodes take the start values from the block before the loop, the next ones from the body. */
  lemma PhisGive(c: Code, st: Site, t: TState, x: Cells, y: Cells)
    requires st.In(c) && t.Running?
    requires || (t.block == st.from && x == [Bits(PTR_BITS, 0)] && y == BoolCell(true))
             || (t.block == st.h + 1 && Eval(t.regs, Reg(st.accNext)) == Some(y) &&
                Eval(t.regs, Reg(st.iNext)) == Some(x))
    ensures var tail: Regs := map[][st.base + 7 := y];
            PhiValues(c.blocks[st.h].phis, t.block, t.regs) == Some(tail[st.base + 6 := x])
  {
    hide Eval, BoolCell;
    var phis := c.blocks[st.h].phis;
    IncomingOf(phis[0].incoming, t.block);
    IncomingOf(phis[1].incoming, t.block);
    assert phis[1..][0] == phis[1] && phis[1..][1..] == [];
    EvalLit(t.regs, BoolCell(true));
    EvalLit(t.regs, [Bits(PTR_BITS, 0)]);
    hide Incoming;
    var tail: Regs := map[][st.base + 7 := y];
    assert PhiValues(phis[1..], t.block, t.regs) == Some(tail);
  }

  lemma EvalLit(regs: Regs, v: Cells)
    ensures Eval(regs, Lit(v)) == Some(v)
  {
  }

  lemma KnownEval(t: TState, o: Opnd, v: Cells, n: nat)
    requires Known(t, o, v, n)
    ensures Eval(t.regs, o) == Some(v)
  {
  }

  /** The test at the loop head. */
  lemma HeadOk(c: Code, t0: TState, st: Site, i: nat, acc: bool, s: TState)
    returns (u: TState)
    requires st.In(c) && i <= st.n && st.AtHead(s, i, acc) && Reaches(c.blocks, t0, s, 0)
    ensures Reaches(c.blocks, t0, u, 0) && Keeps(s, u, st.base + 8) && st.InLoop(u, i, acc)
    ensures u.block == (if i < st.n then st.h + 1 else st.h + 2) && u.pc == 0
  {
    assert s.Running?;
    hide *;
    var b := st.base;
    var s1 := s.(pc := 1, regs := s.regs[b + 8 := BoolCell(i < st.n)]);
    var next := if i < st.n then st.h + 1 else st.h + 2;
    u := Running(next, 0, s1.regs + map[], s1.mem);
    HeadTest(c, st, i, acc, s, s1);
    HeadBranch(c, st, i < st.n, s1, u);
    ReachesStep(c.blocks, t0, s, s1, 0);
    ReachesStep(c.blocks, t0, s1, u, 0);
    HeadKeeps(st, i, acc, s, u);
  }

  lemma HeadTest(c: Code, st: Site, i: nat, acc: bool, s: TState, s1: TState)
    requires st.In(c) && i <= st.n && st.AtHead(s, i, acc)
    requires s1 == s.(pc := 1, regs := s.regs[st.base + 8 := BoolCell(i < st.n)])
    ensures StepT(c.blocks, s) == Some(s1) && s1.Running? && s1.block == st.h
  {
    hide BoolCell;
    var test := c.blocks[st.h].instrs[0];
    assert |c.blocks[st.h].instrs| == 1 && test == Icmp(st.base + 8, ULT, Reg(st.base + 6), Reg(st.base + 5));
    hide ClosedHead, HeadBlock;
    assert EvalBits(s.regs, Reg(st.base + 6)) == Some(Bits(PTR_BITS, i));
    assert EvalBits(s.regs, Reg(st.base + 5)) == Some(Bits(PTR_BITS, st.n));
    assert Result(test, s.regs, s.mem) == Some(BoolCell(i < st.n));
  }

  lemma HeadBranch(c: Code, st: Site, more: bool, s: TState, u: TState)
    requires st.In(c) && s.Running? && s.block == st.h && s.pc == 1 && st.base + 8 in s.regs
    requires s.regs[st.base + 8] == BoolCell(more)
    requires u == Running(if more then st.h + 1 else st.h + 2, 0, s.regs + map[], s.mem)
    ensures StepT(c.blocks, s) == Some(u)
  {
    var head := c.blocks[st.h];
    assert |head.instrs| == 1 && head.term == CondBr(Reg(st.base + 8), st.h + 1, st.h + 2);
    hide ClosedHead, HeadBlock;
  }

  lemma HeadKeeps(st: Site, i: nat, acc: bool, s: TState, u: TState)
    requires st.AtHead(s, i, acc) && u.Running? && u.mem == s.mem
    requires u.regs == s.regs[st.base + 8 := BoolCell(i < st.n)] + map[]
    ensures Keeps(s, u, st.base + 8) && st.InLoop(u, i, acc)
  {
    hide BoolCell;
  }

  lemma EvalPredEq(w: nat, x: nat, y: nat)
    requires w >= 1
    ensures EvalPred(EQ, w, x, y) == (x == y) && EvalPred(ULT, w, x, y) == (x < y)
  {
  }

  lemma AndBits(x: bool, y: bool)
    ensures EvalIr(IAnd, 1, if x then 1 else 0, if y then 1 else 0) == Some(if x && y then 1 else 0)
  {
  }

  lemma CountUp(i: nat, n: nat)
    requires i < n < Pow2(PTR_BITS)
    ensures EvalIr(IAdd, PTR_BITS, i, 1) == Some(i + 1)
  {
    DivModUnique(0, Pow2(PTR_BITS), i + 1);
  }

  /** Both elements are read at the same index. */
  lemma LoadsOk(c: Code, t0: TState, e0: Em, st: Site, item: Ty, env: Env, mem: Mem, i: nat, acc: bool, s: TState)
    returns (u: TState)
    requires Ready(e0) && e0.next == st.base + 9 && Within(LoopLoads(e0, st.base, Size(item)), c)
    requires Sim(c, t0, e0, s) && st.InLoop(s, i, acc) && i < Pow2(PTR_BITS)
    requires MemRel(env, mem, s.mem, c.scratch)
    requires Load(env, mem, Item(st.p, item, i), item).Some? && Load(env, mem, Item(st.q, item, i), item).Some?
    ensures Sim(c, t0, LoopLoads(e0, st.base, Size(item)), u) && Keeps(s, u, st.base + 9)
    ensures Known(u, Reg(st.base + 11), Enc(Load(env, mem, Item(st.p, item, i), item).value, Leaves(item)),
              st.base + 13)
    ensures Known(u, Reg(st.base + 12), Enc(Load(env, mem, Item(st.q, item, i), item).value, Leaves(item)),
              st.base + 13)
  {
    hide *;
    var b, size := st.base, Size(item);
    var x, y := Item(st.p, item, i), Item(st.q, item, i);
    var e1 := Def(e0, GepScaled(b + 9, Reg(b), Reg(b + 6), size)).0;
    var e2 := Def(e1, GepScaled(b + 10, Reg(b + 1), Reg(b + 6), size)).0;
    var e3 := Def(e2, LoadCells(b + 11, Reg(b + 9), size)).0;
    var e4 := Def(e3, LoadCells(b + 12, Reg(b + 10), size)).0;
    LoopLoadsParts(e0, b, size);
    WithinTrans(e3, e4, c); WithinTrans(e2, e3, c); WithinTrans(e1, e2, c);
    InLoopKnown(st, s, i, acc, b + 9);
    MemRelOk(env, mem, s.mem, c.scratch);
    ItemAt(env, mem, st.p, item, i);
    ItemAt(env, mem, st.q, item, i);
    var s1 := GepScaledOk(c, t0, e0, Reg(b), Reg(b + 6), size, st.p, i, s);
    InLoopKept(st, s, s1, i, acc, b + 9);
    InLoopKnown(st, s1, i, acc, b + 10);
    var s2 := GepScaledOk(c, t0, e1, Reg(b + 1), Reg(b + 6), size, st.q, i, s1);
    KeepsTrans(s, s1, s2, b + 9, b + 10);
    KnownKept(s1, s2, b + 10, Reg(b + 9), [CPtr(x)], b + 11);
    KeepsMem(s, s2, b + 9);
    var s3 := LoadOk(c, t0, e2, Reg(b + 9), env, mem, x, item, s2);
    KeepsTrans(s, s2, s3, b + 9, b + 11);
    KnownKept(s2, s3, b + 11, Reg(b + 10), [CPtr(y)], b + 12);
    KeepsMem(s, s3, b + 9);
    u := LoadOk(c, t0, e3, Reg(b + 10), env, mem, y, item, s3);
    KnownKept(s3, u, b + 12, Reg(b + 11), Enc(Load(env, mem, x, item).value, Leaves(item)), b + 13);
    KeepsTrans(s, s3, u, b + 9, b + 12);
  }

  lemma ItemAt(env: Env, mem: Mem, p: Addr, item: Ty, i: nat)
    requires MemOk(env, mem) && Load(env, mem, Item(p, item, i), item).Some?
    ensures p.At? && Item(p, item, i) == At(p.root, p.off + i * Size(item))
    ensures |Load(env, mem, Item(p, item, i), item).value| == |Leaves(item)|
  {
  }

  /** Fold the result, count, and jump back to the head. */
  lemma LoopStepOk(c: Code, t0: TState, f: Em, st: Site, here: Opnd, res: bool, i: nat, acc: bool, s: TState)
    returns (u: TState)
    requires st.In(c) && Ready(f) && Within(LoopStep(f, st.base, here), c) && Sim(c, t0, f, s)
    requires f.cur == st.h + 1 && f.next >= st.base + 13 && st.accNext == f.next && st.iNext == f.next + 1
    requires f.cur < |c.blocks| && c.blocks[f.cur].term == Br(st.h)
    requires c.blocks[f.cur].instrs == LoopStep(f, st.base, here).blocks[f.cur].instrs
    requires st.InLoop(s, i, acc) && i < st.n < Pow2(PTR_BITS) && Known(s, here, BoolCell(res), f.next)
    ensures Reaches(c.blocks, t0, u, 0) && st.AtHead(u, i + 1, acc && res) && Keeps(s, u, st.base)
  {
    hide *;
    var b := st.base;
    var one := Lit([Bits(PTR_BITS, 1)]);
    var f1 := Def(f, Bin(f.next, IAnd, Reg(b + 7), here)).0;
    var f2 := Def(f1, Bin(f1.next, IAdd, Reg(b + 6), one)).0;
    LoopStepParts(f, b, here);
    WithinTrans(f1, f2, c);
    InLoopKnown(st, s, i, acc, f.next);
    var s4 := AndBoolOk(c, t0, f, Reg(b + 7), here, acc, res, s);
    InLoopKept(st, s, s4, i, acc, f.next);
    InLoopKnown(st, s4, i, acc, f1.next);
    KnownLit(s4, one, f1.next);
    CountUp(i, st.n);
    var s5 := BinOk(c, t0, f1, IAdd, Reg(b + 6), one, PTR_BITS, i, 1, s4);
    KeepsTrans(s, s4, s5, b, f1.next);
    InLoopKept(st, s4, s5, i, acc, f1.next);
    KnownKept(s4, s5, f1.next, Reg(f.next), BoolCell(acc && res), f2.next);
    InLoopReady(st, s5, i, acc);
    u := EnterHead(c, t0, f2, st, s5, i + 1, acc && res);
    KeepsTrans(s, s5, u, b, b);
  }

  lemma InLoopReady(st: Site, s: TState, i: nat, acc: bool)
    requires st.InLoop(s, i, acc)
    ensures st.Ready(s)
  {
  }

  lemma LoopStepParts(f: Em, b: nat, here: Opnd)
    requires Ready(f)
    ensures var f1 := Def(f, Bin(f.next, IAnd, Reg(b + 7), here)).0;
            LoopStep(f, b, here) == Def(f1, Bin(f1.next, IAdd, Reg(b + 6), Lit([Bits(PTR_BITS, 1)]))).0
  {
    hide Def, Push, Grows;
  }

  lemma AndBoolOk(c: Code, t0: TState, e: Em, a: Opnd, b: Opnd, x: bool, y: bool, t: TState) returns (u: TState)
    requires Ready(e) && Within(Def(e, Bin(e.next, IAnd, a, b)).0, c) && Sim(c, t0, e, t)
    requires Known(t, a, BoolCell(x), e.next) && Known(t, b, BoolCell(y), e.next)
    ensures Sim(c, t0, Def(e, Bin(e.next, IAnd, a, b)).0, u) && Keeps(t, u, e.next)
    ensures Known(u, Reg(e.next), BoolCell(x && y), e.next + 1)
  {
    AndBits(x, y);
    u := BinOk(c, t0, e, IAnd, a, b, 1, if x then 1 else 0, if y then 1 else 0, t);
  }

  /** The code of a loop body: where it starts, how it compares two elements, how it ends. */
  ghost predicate BodyIn(c: Code, e0: Em, st: Site, item: Ty, f: Em, here: Opnd) {
    && Ready(e0) && Ready(f) && e0.next == st.base + 9
    && (f, here) == EmitEq(LoopLoads(e0, st.base, Size(item)), item, Reg(st.base + 11), Reg(st.base + 12))
    && e0.cur == st.h + 1 && e0.blocks[e0.cur] == EMPTY_BLOCK
    && Within(LoopStep(f, st.base, here), c)
    && st.accNext == f.next && st.iNext == f.next + 1
    && f.cur < |c.blocks| && c.blocks[f.cur].term == Br(st.h)
    && c.blocks[f.cur].instrs == LoopStep(f, st.base, here).blocks[f.cur].instrs
  }

  /** One round of the loop: read both elements, compare them, fold the result and count. */
  lemma RoundOk(c: Code, t0: TState, e0: Em, st: Site, item: Ty, f: Em, op: Opnd, env: Env, mem: Mem, i: nat, acc: bool,
      x: Val, y: Val, here: bool, s: TState)
    returns (u: TState)
    requires st.In(c) && BodyIn(c, e0, st, item, f, op)
    requires i < st.n < Pow2(PTR_BITS) && st.AtHead(s, i, acc) && Reaches(c.blocks, t0, s, 0)
    requires MemRel(env, mem, s.mem, c.scratch)
    requires Comparable(item) && !OpensLoop(item)
    requires Load(env, mem, Item(st.p, item, i), item) == Some(x)
    requires Load(env, mem, Item(st.q, item, i), item) == Some(y)
    requires SemEq(env, mem, item, x, y) == Some(here)
    ensures Reaches(c.blocks, t0, u, 0) && Keeps(s, u, st.base) && st.AtHead(u, i + 1, acc && here)
    decreases Depth(item), 2, 0
  {
    hide *;
    var b := st.base;
    BodyParts(c, e0, st, item, f, op);
    var e1 := LoopLoads(e0, b, Size(item));
    WithinTrans(f, LoopStep(f, b, op), c);
    WithinTrans(e1, f, c);
    EmitEqStraight(e1, item, Reg(b + 11), Reg(b + 12));
    var s1 := HeadOk(c, t0, st, i, acc, s);
    KeepsMem(s, s1, b + 8);
    BodyStart(c, t0, e0, st, s1);
    var s2 := LoadsOk(c, t0, e0, st, item, env, mem, i, acc, s1);
    KeepsTrans(s, s1, s2, b + 8, b + 9);
    KeepsMem(s, s2, b + 8);
    var s3 := EqOk(c, t0, e1, env, mem, item, Reg(b + 11), Reg(b + 12), x, y, s2);
    KeepsTrans(s1, s2, s3, b + 9, b + 13);
    InLoopKept(st, s1, s3, i, acc, b + 9);
    u := LoopStepOk(c, t0, f, st, op, here, i, acc, s3);
    KeepsTrans(s, s2, s3, b + 8, b + 13);
    KeepsLess(s, s3, b, b + 8);
    KeepsTrans(s, s3, u, b, b);
  }

  lemma BodyParts(c: Code, e0: Em, st: Site, item: Ty, f: Em, here: Opnd)
    requires BodyIn(c, e0, st, item, f, here)
    ensures Ready(e0) && Ready(f) && e0.next == st.base + 9 && e0.cur == st.h + 1 && e0.blocks[e0.cur] == EMPTY_BLOCK
    ensures (f, here) == EmitEq(LoopLoads(e0, st.base, Size(item)), item, Reg(st.base + 11), Reg(st.base + 12))
    ensures Within(LoopStep(f, st.base, here), c) && st.accNext == f.next && st.iNext == f.next + 1
    ensures f.next >= st.base + 13
    ensures f.cur < |c.blocks| && c.blocks[f.cur].term == Br(st.h)
    ensures c.blocks[f.cur].instrs == LoopStep(f, st.base, here).blocks[f.cur].instrs
  {
    hide EmitEq, LoopLoads, LoopStep, Within;
  }

  lemma BodyStart(c: Code, t0: TState, e0: Em, st: Site, s: TState)
    requires Ready(e0) && e0.blocks[e0.cur] == EMPTY_BLOCK && e0.cur == st.h + 1
    requires s.Running? && s.block == st.h + 1 && s.pc == 0 && Reaches(c.blocks, t0, s, 0)
    ensures Sim(c, t0, e0, s)
  {
    hide Reaches;
  }

  lemma {:induction false} UpToDefined(env: Env, mem: Mem, e: Ty, p: Addr, q: Addr, i: nat, n: nat)
    requires MemOk(env, mem) && i <= n && SemEqUpTo(env, mem, e, p, q, n).Some?
    ensures SemEqUpTo(env, mem, e, p, q, i).Some?
    decreases n
  {
    hide SemEqUpTo, MemOk, SemEq, Load, Item;
    if i < n {
      UpToStep(env, mem, e, p, q, n);
      UpToDefined(env, mem, e, p, q, i, n - 1);
    }
  }

  lemma UpToStep(env: Env, mem: Mem, e: Ty, p: Addr, q: Addr, n: nat)
    requires MemOk(env, mem) && n > 0 && SemEqUpTo(env, mem, e, p, q, n).Some?
    ensures SemEqUpTo(env, mem, e, p, q, n - 1).Some?
  {
    hide SemEq, Load, Item, MemOk;
  }

  /** From the loop head with `i` elements done to the block after the loop. */
  lemma {:induction false} LoopOk(c: Code, t0: TState, e0: Em, st: Site, item: Ty, f: Em, op: Opnd, env: Env, mem: Mem,
      i: nat, acc: bool, s: TState)
    returns (u: TState)
    requires st.In(c) && BodyIn(c, e0, st, item, f, op) && st.n < Pow2(PTR_BITS)
    requires i <= st.n && st.AtHead(s, i, acc) && Reaches(c.blocks, t0, s, 0) && MemRel(env, mem, s.mem, c.scratch)
    requires Comparable(item) && !OpensLoop(item)
    requires SemEqUpTo(env, mem, item, st.p, st.q, st.n).Some?
    requires SemEqUpTo(env, mem, item, st.p, st.q, i) == Some(acc)
    ensures Reaches(c.blocks, t0, u, 0) && Keeps(s, u, st.base) && u.block == st.h + 2 && u.pc == 0
    ensures st.InLoop(u, st.n, SemEqUpTo(env, mem, item, st.p, st.q, st.n).value)
    decreases Depth(item), 3, st.n - i
  {
    hide *;
    if i == st.n {
      u := HeadOk(c, t0, st, i, acc, s);
      KeepsLess(s, u, st.base, st.base + 8);
    } else {
      MemRelOk(env, mem, s.mem, c.scratch);
      var x, y, here := UpToNext(env, mem, item, st.p, st.q, i, st.n, acc);
      var s1 := RoundOk(c, t0, e0, st, item, f, op, env, mem, i, acc, x, y, here, s);
      KeepsMem(s, s1, st.base);
      u := LoopOk(c, t0, e0, st, item, f, op, env, mem, i + 1, acc && here, s1);
      KeepsTrans(s, s1, u, st.base, st.base);
    }
  }

  lemma MemRelOk(env: Env, mem: Mem, tmem: TMem, scratch: seq<nat>)
    requires MemRel(env, mem, tmem, scratch)
    ensures MemOk(env, mem)
  {
  }

  lemma UpToNext(env: Env, mem: Mem, e: Ty, p: Addr, q: Addr, i: nat, n: nat, acc: bool)
    returns (x: Val, y: Val, here: bool)
    requires MemOk(env, mem) && i < n && SemEqUpTo(env, mem, e, p, q, n).Some?
    requires SemEqUpTo(env, mem, e, p, q, i) == Some(acc)
    ensures Load(env, mem, Item(p, e, i), e) == Some(x) && Load(env, mem, Item(q, e, i), e) == Some(y)
    ensures SemEq(env, mem, e, x, y) == Some(here) && SemEqUpTo(env, mem, e, p, q, i + 1) == Some(acc && here)
  {
    hide Load, SemEq, MemOk, ValOk, Item;
    UpToDefined(env, mem, e, p, q, i + 1, n);
    x := Load(env, mem, Item(p, e, i), e).value;
    y := Load(env, mem, Item(q, e, i), e).value;
    here := SemEq(env, mem, e, x, y).value;
  }

  /** A comparison that opens no loop stays in its block; this is what makes the label that a loop
      records for its body the block that really jumps back. */
  lemma {:induction false} EmitEqStraight(e: Em, ty: Ty, l: Opnd, r: Opnd)
    requires Ready(e)
    ensures EmitEq(e, ty, l, r).0.cur == e.cur <==> !OpensLoop(ty)
    decreases Depth(ty), 1, 0
  {
    hide *;
    if ty.Slice? {
      EmitEqSlice(e, ty.item, l, r);
      SliceItem(ty);
      CurBelow(e);
      var (e2, here) := EmitEq(SliceOpen(e, ty.item, l, r), ty.item, Reg(e.next + 11), Reg(e.next + 12));
      SliceCloseCur(e2, e.cur, |e.blocks|, e.next, here);
    } else if ty.Array? || ty.Struct? {
      EmitEqMembers(e, ty, l, r);
      EmitEqAllStraight(e, Depth(ty), Kids(ty), 0, l, r, None);
      OpensLoopKids(ty);
    } else {
      EmitEqLeafCur(e, ty, l, r);
    }
  }

  lemma SliceItem(ty: Ty)
    requires ty.Slice?
    ensures ty == Slice(ty.item) && OpensLoop(ty)
  {
  }

  lemma EmitEqLeafCur(e: Em, ty: Ty, l: Opnd, r: Opnd)
    requires Ready(e) && !ty.Slice? && !ty.Array? && !ty.Struct?
    ensures EmitEq(e, ty, l, r).0.cur == e.cur && !OpensLoop(ty)
  {
    EmitEqLeaf(e, ty, l, r);
  }

  lemma SliceCloseCur(e: Em, from: nat, h: nat, base: nat, here: Opnd)
    requires Ready(e) && h + 2 < |e.blocks| && Ready(CloseLoop(e, from, h, base, here))
    ensures SliceClose(e, from, h, base, here).0.cur == h + 2
  {
    hide Def, Push, Grows, HeadBlock, LoopStep, SetTerm;
  }

  lemma {:induction false} EmitEqAllStraight(e: Em, d: nat, tys: seq<Ty>, off: nat, l: Opnd, r: Opnd, acc: Option<Opnd>)
    requires Ready(e) && DepthBelow(tys, d)
    ensures EmitEqAll(e, d, tys, off, l, r, acc).0.cur == e.cur <==> !OpensLoopAny(tys)
    decreases d, 0, |tys|
  {
    hide *;
    if tys == [] {
      EmitEqAllNil(e, d, off, l, r, acc);
      OpensNothing();
    } else {
      EmitEqAllCons(e, d, tys, off, l, r, acc);
      OpensLoopAnyCons(tys);
      DepthOfFirst(tys, d);
      var n := Size(tys[0]);
      var (e1, a) := Def(e, Extract(e.next, l, off, n));
      var (e2, b) := Def(e1, Extract(e1.next, r, off, n));
      var (e3, here) := EmitEq(e2, tys[0], a, b);
      var (e4, next) := EmitAnd(e3, acc, here);
      EmitEqStraight(e2, tys[0], a, b);
      EmitEqAllStraight(e4, d, tys[1..], off + n, l, r, Some(next));
      CurMoves(e2, e3, e4, EmitEqAll(e4, d, tys[1..], off + n, l, r, Some(next)).0);
    }
  }

  lemma OpensNothing()
    ensures !OpensLoopAny([])
  {
  }

  lemma OpensLoopAnyCons(tys: seq<Ty>)
    requires tys != []
    ensures OpensLoopAny(tys) == (OpensLoop(tys[0]) || OpensLoopAny(tys[1..]))
  {
  }

  lemma DepthOfFirst(tys: seq<Ty>, d: nat)
    requires DepthBelow(tys, d) && tys != []
    ensures Depth(tys[0]) < d
  {
  }

  /** Once a block is left, emission never comes back to it. */
  lemma CurMoves(e2: Em, e3: Em, e4: Em, f: Em)
    requires Grows(e2, e3) && Grows(e3, e4) && Grows(e4, f) && e4.cur == e3.cur
    ensures f.cur == e2.cur <==> f.cur == e4.cur && e3.cur == e2.cur
  {
  }

  lemma OpensLoopKids(ty: Ty)
    requires ty.Array? || ty.Struct?
    ensures OpensLoop(ty) == OpensLoopAny(Kids(ty))
  {
    if ty.Array? {
      RepeatOpens(ty.elem, ty.len);
    }
  }

  lemma {:induction false} RepeatOpens(e: Ty, n: nat)
    ensures OpensLoopAny(seq(n, _ => e)) == (n > 0 && OpensLoop(e))
  {
    if n > 0 {
      assert seq(n, _ => e)[1..] == seq(n - 1, _ => e);
      RepeatOpens(e, n - 1);
    }
  }

  lemma {:induction false} ComparableKids(ty: Ty)
    requires (ty.Array? || ty.Struct?) && Comparable(ty)
    ensures ComparableAll(Kids(ty))
  {
    if ty.Array? {
      RepeatComparable(ty.elem, ty.len);
    }
  }

  lemma {:induction false} RepeatComparable(e: Ty, n: nat)
    requires Comparable(e)
    ensures ComparableAll(seq(n, _ => e))
  {
    if n > 0 {
      assert seq(n, _ => e)[1..] == seq(n - 1, _ => e);
      RepeatComparable(e, n - 1);
    }
  }

  /** The main result: from where the comparison starts, the machine reaches where it ends with the
      structural equality of the two values in the result, whatever blocks were opened between. */
  lemma {:induction false} EqOk(c: Code, t0: TState, e: Em, env: Env, mem: Mem, ty: Ty, l: Opnd, r: Opnd, a: Val,
      b: Val, t: TState)
    returns (u: TState)
    requires Ready(e) && Within(EmitEq(e, ty, l, r).0, c) && Sim(c, t0, e, t)
    requires MemRel(env, mem, t.mem, c.scratch) && Comparable(ty)
    requires ValOk(a, Leaves(ty)) && ValOk(b, Leaves(ty))
    requires Known(t, l, Enc(a, Leaves(ty)), e.next) && Known(t, r, Enc(b, Leaves(ty)), e.next)
    requires SemEq(env, mem, ty, a, b).Some?
    ensures Sim(c, t0, EmitEq(e, ty, l, r).0, u) && Keeps(t, u, e.next)
    ensures Known(u, EmitEq(e, ty, l, r).1, BoolCell(SemEq(env, mem, ty, a, b).value), EmitEq(e, ty, l, r).0.next)
    decreases Depth(ty), 1, 0
  {
    EqKinds(ty);
    MemRelOk(env, mem, t.mem, c.scratch);
    hide *;
    if IsLeafTy(ty) {
      u := EqLeafOk(c, t0, e, env, mem, ty, l, r, a, b, t);
    } else if ty.Slice? {
      u := SliceEqOk(c, t0, e, env, mem, ty, l, r, a, b, t);
    } else {
      MembersSem(env, mem, ty, a, b);
      EmitEqMembers(e, ty, l, r);
      u := EqAllOk(c, t0, e, env, mem, Depth(ty), Kids(ty), 0, l, r, a, b, Leaves(ty), None, true, t);
      SimRunning(c, t0, EmitEq(e, ty, l, r).0, u);
      KnownLit(u, Lit(BoolCell(true)), EmitEq(e, ty, l, r).0.next);
    }
  }

  lemma EqKinds(ty: Ty)
    requires Comparable(ty)
    ensures IsLeafTy(ty) || ty.Slice? || ty.Array? || ty.Struct?
  {
  }

  lemma MembersSem(env: Env, mem: Mem, ty: Ty, a: Val, b: Val)
    requires MemOk(env, mem) && (ty.Array? || ty.Struct?) && Comparable(ty)
    requires ValOk(a, Leaves(ty)) && ValOk(b, Leaves(ty))
    ensures a[0..] == a && b[0..] == b && Leaves(ty)[0..] == Leaves(ty) == LeavesAll(Kids(ty))
    ensures |a| == |b| == |Leaves(ty)|
    ensures DepthBelow(Kids(ty), Depth(ty)) && ComparableAll(Kids(ty))
    ensures SemEq(env, mem, ty, a, b) == SemEqAll(env, mem, Depth(ty), Kids(ty), a, b)
  {
    KidsBelow(ty);
    LeavesOfKids(ty);
    ComparableKids(ty);
    ValLen(a, Leaves(ty));
    ValLen(b, Leaves(ty));
    hide MemOk, ValOk, Kids, Leaves, SemEqAll;
  }

  /** `acc` holds the conjunction so far; members from offset `off` on are still to be compared. */
  lemma {:induction false} EqAllOk(c: Code, t0: TState, e: Em, env: Env, mem: Mem, d: nat, tys: seq<Ty>, off: nat,
      l: Opnd, r: Opnd, a: Val, b: Val, ls: seq<Leaf>, acc: Option<Opnd>, sofar: bool, t: TState)
    returns (u: TState)
    requires Ready(e) && DepthBelow(tys, d) && Within(EmitEqAll(e, d, tys, off, l, r, acc).0, c) && Sim(c, t0, e, t)
    requires MemRel(env, mem, t.mem, c.scratch) && ComparableAll(tys)
    requires |a| == |b| == |ls| && off <= |ls| && ls[off..] == LeavesAll(tys)
    requires ValOk(a[off..], LeavesAll(tys)) && ValOk(b[off..], LeavesAll(tys))
    requires Known(t, l, Enc(a, ls), e.next) && Known(t, r, Enc(b, ls), e.next)
    requires if acc.Some? then Known(t, acc.value, BoolCell(sofar), e.next) else sofar
    requires SemEqAll(env, mem, d, tys, a[off..], b[off..]).Some?
    ensures var f := EmitEqAll(e, d, tys, off, l, r, acc);
            var res := sofar && SemEqAll(env, mem, d, tys, a[off..], b[off..]).value;
            && Sim(c, t0, f.0, u) && Keeps(t, u, e.next)
            && if f.1.Some? then Known(u, f.1.value, BoolCell(res), f.0.next) else res
    decreases d, 0, |tys|
  {
    hide *;
    MemRelOk(env, mem, t.mem, c.scratch);
    SimRunning(c, t0, e, t);
    if tys == [] {
      EqAllNil(e, env, mem, d, off, l, r, a, b, ls, acc, t);
      u := t;
    } else {
      DepthOfFirst(tys, d);
      ComparableFirst(tys);
      EmitEqAllCons(e, d, tys, off, l, r, acc);
      var ty, n := tys[0], Size(tys[0]);
      var (e1, x) := Def(e, Extract(e.next, l, off, n));
      var (e2, y) := Def(e1, Extract(e1.next, r, off, n));
      var (e3, q) := EmitEq(e2, ty, x, y);
      var (e4, next) := EmitAnd(e3, acc, q);
      var f := EmitEqAll(e4, d, tys[1..], off + n, l, r, Some(next));
      GrowsNext(e2, e3); GrowsNext(e3, e4);
      WithinTrans(e4, f.0, c); WithinTrans(e3, e4, c); WithinTrans(e2, e3, c); WithinTrans(e1, e2, c);
      var va, vb, here, rest := SemEqAllParts(env, mem, d, tys, a, b, ls, off);
      var t1 := ExtractOk(c, t0, e, l, Enc(a, ls), off, n, t);
      KnownKept(t, t1, e.next, r, Enc(b, ls), e1.next);
      var t2 := ExtractOk(c, t0, e1, r, Enc(b, ls), off, n, t1);
      KnownKept(t1, t2, e1.next, x, Enc(va, Leaves(ty)), e2.next);
      KeepsTrans(t, t1, t2, e.next, e1.next);
      KeepsMem(t, t2, e.next);
      var t3 := EqOk(c, t0, e2, env, mem, ty, x, y, va, vb, t2);
      KeepsTrans(t, t2, t3, e.next, e2.next);
      var t4 := AndOk(c, t0, e3, acc, q, sofar, here, e.next, t, t3);
      KeepsMem(t, t4, e.next);
      KnownKept(t, t4, e.next, l, Enc(a, ls), e4.next);
      KnownKept(t, t4, e.next, r, Enc(b, ls), e4.next);
      u := EqAllOk(c, t0, e4, env, mem, d, tys[1..], off + n, l, r, a, b, ls, Some(next), sofar && here, t4);
      KeepsTrans(t, t4, u, e.next, e4.next);
    }
  }

  lemma SimRunning(c: Code, t0: TState, e: Em, t: TState)
    requires Sim(c, t0, e, t)
    ensures t.Running?
  {
  }

  lemma ComparableFirst(tys: seq<Ty>)
    requires ComparableAll(tys) && tys != []
    ensures Comparable(tys[0]) && ComparableAll(tys[1..])
  {
  }

  lemma EqAllNil(e: Em, env: Env, mem: Mem, d: nat, off: nat, l: Opnd, r: Opnd, a: Val, b: Val, ls: seq<Leaf>,
      acc: Option<Opnd>, t: TState)
    requires Ready(e) && MemOk(env, mem) && DepthBelow([], d) && off <= |a| == |b| == |ls| && t.Running?
    requires ValOk(a[off..], LeavesAll([])) && ValOk(b[off..], LeavesAll([]))
    ensures EmitEqAll(e, d, [], off, l, r, acc) == (e, acc) && Keeps(t, t, e.next)
    ensures SemEqAll(env, mem, d, [], a[off..], b[off..]) == Some(true)
  {
    hide MemOk;
  }

  /** The cells of the first member, cut out of a whole aggregate. */
  lemma FirstMember(a: Val, ls: seq<Leaf>, off: nat, tys: seq<Ty>) returns (va: Val)
    requires |a| == |ls| && off <= |ls| && tys != [] && ls[off..] == LeavesAll(tys) && ValOk(a[off..], LeavesAll(tys))
    ensures var n := Size(tys[0]);
            && off + n <= |ls| && ls[off + n..] == LeavesAll(tys[1..])
            && va == a[off..][..n] && a[off..][n..] == a[off + n..]
            && ValOk(va, Leaves(tys[0])) && ValOk(a[off + n..], LeavesAll(tys[1..]))
            && Enc(a, ls)[off..off + n] == Enc(va, Leaves(tys[0]))
  {
    var n := Size(tys[0]);
    var l1, l2 := Leaves(tys[0]), LeavesAll(tys[1..]);
    assert ls[off..] == l1 + l2;
    ValOkSplit(a[off..], l1, l2);
    va := a[off..][..n];
    assert va == a[off..off + n] && a[off..][n..] == a[off + n..];
    assert ls[off..off + n] == ls[off..][..n] == l1;
    assert ls[off + n..] == ls[off..][n..] == l2;
    EncSlice(a, ls, off, off + n);
  }

  lemma SemEqAllParts(env: Env, mem: Mem, d: nat, tys: seq<Ty>, a: Val, b: Val, ls: seq<Leaf>, off: nat)
    returns (va: Val, vb: Val, here: bool, rest: bool)
    requires MemOk(env, mem) && DepthBelow(tys, d) && tys != []
    requires |a| == |b| == |ls| && off <= |ls| && ls[off..] == LeavesAll(tys)
    requires ValOk(a[off..], LeavesAll(tys)) && ValOk(b[off..], LeavesAll(tys))
    requires SemEqAll(env, mem, d, tys, a[off..], b[off..]).Some?
    ensures var n := Size(tys[0]);
            && off + n <= |ls|
            && ValOk(va, Leaves(tys[0])) && ValOk(vb, Leaves(tys[0]))
            && |va| == |Leaves(tys[0])| == |vb|
            && Enc(a, ls)[off..off + n] == Enc(va, Leaves(tys[0]))
            && Enc(b, ls)[off..off + n] == Enc(vb, Leaves(tys[0]))
            && SemEq(env, mem, tys[0], va, vb) == Some(here)
            && ls[off + n..] == LeavesAll(tys[1..])
            && ValOk(a[off + n..], LeavesAll(tys[1..])) && ValOk(b[off + n..], LeavesAll(tys[1..]))
            && SemEqAll(env, mem, d, tys[1..], a[off + n..], b[off + n..]) == Some(rest)
            && SemEqAll(env, mem, d, tys, a[off..], b[off..]) == Some(here && rest)
  {
    hide *;
    var n := Size(tys[0]);
    va := FirstMember(a, ls, off, tys);
    vb := FirstMember(b, ls, off, tys);
    EqAllConsSem(env, mem, d, tys, a[off..], b[off..]);
    ValLen(va, Leaves(tys[0]));
    ValLen(vb, Leaves(tys[0]));
    here := SemEq(env, mem, tys[0], va, vb).value;
    rest := SemEqAll(env, mem, d, tys[1..], a[off + n..], b[off + n..]).value;
  }

  lemma AndOk(c: Code, t0: TState, e: Em, acc: Option<Opnd>, q: Opnd, sofar: bool, here: bool, n: nat, s: TState,
      t: TState)
    returns (u: TState)
    requires Ready(e) && n <= e.next && Within(EmitAnd(e, acc, q).0, c) && Sim(c, t0, e, t) && Keeps(s, t, n)
    requires Known(t, q, BoolCell(here), e.next)
    requires if acc.Some? then Known(s, acc.value, BoolCell(sofar), n) else sofar
    ensures Sim(c, t0, EmitAnd(e, acc, q).0, u) && Keeps(s, u, n)
    ensures Known(u, EmitAnd(e, acc, q).1, BoolCell(sofar && here), EmitAnd(e, acc, q).0.next)
  {
    if acc.None? {
      u := t;
    } else {
      AndBits(sofar, here);
      u := DefOk(c, t0, e, Bin(e.next, IAnd, acc.value, q), t);
    }
  }

  lemma SliceEqOk(c: Code, t0: TState, e: Em, env: Env, mem: Mem, ty: Ty, l: Opnd, r: Opnd, a: Val, b: Val, t: TState)
    returns (u: TState)
    requires ty.Slice? && Ready(e) && Within(EmitEq(e, ty, l, r).0, c) && Sim(c, t0, e, t)
    requires MemRel(env, mem, t.mem, c.scratch) && Comparable(ty)
    requires ValOk(a, Leaves(ty)) && ValOk(b, Leaves(ty))
    requires Known(t, l, Enc(a, Leaves(ty)), e.next) && Known(t, r, Enc(b, Leaves(ty)), e.next)
    requires SemEq(env, mem, ty, a, b).Some?
    ensures Sim(c, t0, EmitEq(e, ty, l, r).0, u) && Keeps(t, u, e.next)
    ensures Known(u, EmitEq(e, ty, l, r).1, BoolCell(SemEq(env, mem, ty, a, b).value), EmitEq(e, ty, l, r).0.next)
    decreases Depth(ty), 0, 0
  {
    hide *;
    MemRelOk(env, mem, t.mem, c.scratch);
    var x, y, res := SliceSem(env, mem, ty, a, b);
    var h, base, item := |e.blocks|, e.next, ty.item;
    var e1 := SlicePrelude(e, l, r);
    var e2 := OpenLoop(e1, base);
    var (f, here) := EmitEq(SliceOpen(e, item, l, r), item, Reg(base + 11), Reg(base + 12));
    var st := Site(base, h, e.cur, f.next + 1, f.next, a[0].a, b[0].a, if x == y then x else 0, x == y);
    SliceIn(c, e, item, l, r, st);
    EmitEqSlice(e, item, l, r);
    SliceTy(ty);
    var t1 := PreludeOk(c, t0, e, st, l, r, x, y, t);
    var t2 := EnterHead(c, t0, e1, st, t1, 0, true);
    KeepsTrans(t, t1, t2, base, base);
    KeepsMem(t, t2, base);
    var t3 := LoopOk(c, t0, e2, st, item, f, here, env, mem, 0, true, t2);
    KeepsTrans(t, t2, t3, base, base);
    var f1 := CloseLoop(f, e.cur, h, base, here);
    DoneStart(c, t0, f1, st, t3);
    SliceCloseIs(f, e.cur, h, base, here);
    InLoopKnown(st, t3, st.n, res, f1.next);
    u := AndBoolOk(c, t0, f1, Reg(base + 4), Reg(base + 7), x == y, res, t3);
    KeepsTrans(t, t3, u, base, f1.next);
  }

  lemma SliceTy(ty: Ty)
    requires ty.Slice? && Comparable(ty)
    ensures ty == Slice(ty.item) && Comparable(ty.item) && !OpensLoop(ty.item) && Depth(ty.item) < Depth(ty)
  {
  }

  lemma SliceCloseIs(e: Em, from: nat, h: nat, base: nat, here: Opnd)
    requires Ready(e) && h + 2 < |e.blocks| && Ready(CloseLoop(e, from, h, base, here))
    ensures var f := CloseLoop(e, from, h, base, here);
            SliceClose(e, from, h, base, here) == Def(f, Bin(f.next, IAnd, Reg(base + 4), Reg(base + 7)))
  {
    hide CloseLoop, Def;
  }

  lemma DoneStart(c: Code, t0: TState, e: Em, st: Site, s: TState)
    requires Ready(e) && e.blocks[e.cur] == EMPTY_BLOCK && e.cur == st.h + 2
    requires s.Running? && s.block == st.h + 2 && s.pc == 0 && Reaches(c.blocks, t0, s, 0)
    ensures Sim(c, t0, e, s)
  {
    hide Reaches;
  }

  /** Structural equality of two slices, in the terms of the loop. */
  lemma SliceSem(env: Env, mem: Mem, ty: Ty, a: Val, b: Val) returns (x: nat, y: nat, res: bool)
    requires MemOk(env, mem) && ty.Slice? && ValOk(a, Leaves(ty)) && ValOk(b, Leaves(ty))
    requires SemEq(env, mem, ty, a, b).Some?
    ensures a[0].SPtr? && b[0].SPtr? && x < Pow2(PTR_BITS) && y < Pow2(PTR_BITS)
    ensures Enc(a, Leaves(ty)) == [CPtr(a[0].a), Bits(PTR_BITS, x)]
    ensures Enc(b, Leaves(ty)) == [CPtr(b[0].a), Bits(PTR_BITS, y)]
    ensures SemEqUpTo(env, mem, ty.item, a[0].a, b[0].a, 0) == Some(true)
    ensures SemEqUpTo(env, mem, ty.item, a[0].a, b[0].a, if x == y then x else 0) == Some(res)
    ensures SemEq(env, mem, ty, a, b) == Some(x == y && res)
  {
    assert ScalarOk(a[1], Leaves(ty)[1]) && ScalarOk(b[1], Leaves(ty)[1]);
    x, y := a[1].n, b[1].n;
    EncPair(a); EncPair(b);
    res := SemEqUpTo(env, mem, ty.item, a[0].a, b[0].a, if x == y then x else 0).value;
  }

  /** Code that contains a whole slice comparison contains its loop, closed, and its body. */
  lemma SliceIn(c: Code, e: Em, item: Ty, l: Opnd, r: Opnd, st: Site)
    requires Ready(e) && Within(EmitEq(e, Slice(item), l, r).0, c) && st.n < Pow2(PTR_BITS)
    requires st.base == e.next && st.h == |e.blocks| && st.from == e.cur
    requires var f := EmitEq(SliceOpen(e, item, l, r), item, Reg(e.next + 11), Reg(e.next + 12)).0;
             st.accNext == f.next && st.iNext == f.next + 1
    ensures var e1 := SlicePrelude(e, l, r);
            var (f, here) := EmitEq(SliceOpen(e, item, l, r), item, Reg(e.next + 11), Reg(e.next + 12));
            && st.In(c) && Within(e1, c) && BodyIn(c, OpenLoop(e1, e.next), st, item, f, here)
            && e1.cur == e.cur < |c.blocks|
            && c.blocks[e.cur].term == Br(st.h) && c.blocks[e.cur].instrs == e1.blocks[e.cur].instrs
    ensures var (f, here) := EmitEq(SliceOpen(e, item, l, r), item, Reg(e.next + 11), Reg(e.next + 12));
            && st.h + 2 < |f.blocks| && Ready(f)
            && var f1 := CloseLoop(f, e.cur, |e.blocks|, e.next, here);
               Ready(f1) && f1.cur == st.h + 2 && f1.blocks[f1.cur] == EMPTY_BLOCK && f1.next >= e.next + 13
  {
    hide *;
    var o := SliceOpen(e, item, l, r);
    var h := |e.blocks|;
    var (f, here) := EmitEq(o, item, Reg(e.next + 11), Reg(e.next + 12));
    EmitEqSlice(e, item, l, r);
    SliceGrows(e, o, f, here);
    GrowsTrans(e, o, f);
    CloseLoopGrows(e, f, e.cur, h, e.next, here);
    CloseLoopDone(e, f, e.cur, h, e.next, here, c);
    CloseLoopWithin(f, e.cur, h, e.next, here, c);
    var g := LoopStep(f, e.next, here);
    GrowsTrans(o, f, g);
    WithinTrans(o, g, c);
    SliceOpenWithin(c, e, item, l, r);
    GrowsNext(o, f);
    MakeBodyIn(c, OpenLoop(SlicePrelude(e, l, r), e.next), st, item, f, here);
    MakeIn(c, st);
  }

  lemma GrowsNext(e: Em, f: Em)
    requires Grows(e, f)
    ensures e.next <= f.next
  {
  }

  lemma MakeIn(c: Code, st: Site)
    requires st.h + 2 < |c.blocks| && st.from < st.h && st.n < Pow2(PTR_BITS)
    requires c.blocks[st.h] == ClosedHead(st.base, st.h, st.from, st.iNext, st.accNext)
    requires c.blocks[st.h + 1].phis == [] && c.blocks[st.h + 2].phis == []
    ensures st.In(c)
  {
    hide ClosedHead;
  }

  lemma MakeBodyIn(c: Code, e0: Em, st: Site, item: Ty, f: Em, here: Opnd)
    requires Ready(e0) && Ready(f) && e0.next == st.base + 9
    requires (f, here) == EmitEq(LoopLoads(e0, st.base, Size(item)), item, Reg(st.base + 11), Reg(st.base + 12))
    requires e0.cur == st.h + 1 && e0.blocks[e0.cur] == EMPTY_BLOCK
    requires Within(LoopStep(f, st.base, here), c)
    requires st.accNext == f.next && st.iNext == f.next + 1
    requires f.cur < |c.blocks| && c.blocks[f.cur].term == Br(st.h)
    requires c.blocks[f.cur].instrs == LoopStep(f, st.base, here).blocks[f.cur].instrs
    ensures BodyIn(c, e0, st, item, f, here)
  {
    hide EmitEq, LoopLoads, LoopStep, Within, Ready, Size;
  }

  /** Finished code keeps the empty shape of the block after a loop, and all that came before. */
  lemma CloseLoopDone(e: Em, f: Em, from: nat, h: nat, base: nat, here: Opnd, c: Code)
    requires Ready(f) && h + 2 < |f.blocks| && f.blocks[h + 2] == EMPTY_BLOCK && f.cur != h + 2
    requires Ready(CloseLoop(f, from, h, base, here)) && Within(SliceClose(f, from, h, base, here).0, c)
    ensures var f1 := CloseLoop(f, from, h, base, here);
            && Within(f1, c) && f1.cur == h + 2 && f1.blocks[h + 2] == EMPTY_BLOCK && f1.next == f.next + 2
            && h + 2 < |c.blocks| && c.blocks[h + 2].phis == [] && f.cur < |c.blocks|
  {
    var f1 := CloseLoop(f, from, h, base, here);
    WithinTrans(f1, SliceClose(f, from, h, base, here).0, c);
    assert BlockLe(f1.blocks[h + 2], c.blocks[h + 2]);
  }

  lemma SliceOpenWithin(c: Code, e: Em, item: Ty, l: Opnd, r: Opnd)
    requires Ready(e) && Within(SliceOpen(e, item, l, r), c)
    ensures var e1 := SlicePrelude(e, l, r); var e2 := OpenLoop(e1, e.next);
            && Ready(e2) && e2.next == e.next + 9 && e2.cur == |e.blocks| + 1 && e1.cur == e.cur < |c.blocks|
            && SliceOpen(e, item, l, r) == LoopLoads(e2, e.next, Size(item))
            && Within(e1, c) && c.blocks[e.cur].term == Br(|e.blocks|) &&
               c.blocks[e.cur].instrs == e1.blocks[e.cur].instrs
            && e2.blocks[e2.cur] == EMPTY_BLOCK && |e.blocks| + 1 < |c.blocks| && c.blocks[|e.blocks| + 1].phis == []
            && e.cur < |e.blocks|
  {
    var e1 := SlicePrelude(e, l, r);
    var e2 := OpenLoop(e1, e.next);
    var o := SliceOpen(e, item, l, r);
    hide SlicePrelude, LoopLoads;
    WithinTrans(e2, o, c);
    WithinTrans(e1, e2, c);
    assert BlockLe(e2.blocks[e.cur], c.blocks[e.cur]);
    assert BlockLe(e2.blocks[e2.cur], c.blocks[e2.cur]);
  }

  lemma EncPair(a: Val)
    requires ValOk(a, [LPtr, LInt(PTR_BITS, false)]) && a[0].SPtr? && a[1].SInt?
    ensures Enc(a, [LPtr, LInt(PTR_BITS, false)]) == [CPtr(a[0].a), Bits(PTR_BITS, a[1].n)]
    ensures 0 <= a[1].n < Pow2(PTR_BITS)
  {
    assert ScalarOk(a[1], LInt(PTR_BITS, false));
    DivModUnique(0, Pow2(PTR_BITS), a[1].n);
  }

  // ----- what the source equality means -----

  predicate Defined(v: Val) {
    forall i :: 0 <= i < |v| ==> v[i] != SUndef
  }

  /** Two cells of one shape hold the same: floats are compared as numbers, everything else as it is. */
  predicate SameCell(l: Leaf, x: Scalar, y: Scalar)
    requires ScalarOk(x, l) && ScalarOk(y, l)
  {
    if l.LFloat? && x.SFloat? && y.SFloat? then FloatEq(l.double, x.f, y.f) else x == y
  }

  predicate SameCells(ls: seq<Leaf>, a: Val, b: Val)
    requires ValOk(a, ls) && ValOk(b, ls)
  {
    forall i :: 0 <= i < |ls| ==> SameCell(ls[i], a[i], b[i])
  }

  predicate NoNaN(ls: seq<Leaf>, a: Val)
    requires ValOk(a, ls)
  {
    forall i :: 0 <= i < |ls| && ls[i].LFloat? && a[i].SFloat? ==> !IsNaNCell(ls[i], a[i])
  }

  predicate IsNaNCell(l: Leaf, x: Scalar)
    requires ScalarOk(x, l) && l.LFloat? && x.SFloat?
  {
    IsNaN(l.double, x.f)
  }

  /** Without slices, structural equality is equality cell by cell, of floats as numbers. */
  lemma {:induction false} PlainEquality(env: Env, mem: Mem, ty: Ty, a: Val, b: Val)
    requires MemOk(env, mem) && Comparable(ty) && !OpensLoop(ty)
    requires ValOk(a, Leaves(ty)) && ValOk(b, Leaves(ty)) && Defined(a) && Defined(b)
    ensures SemEq(env, mem, ty, a, b) == Some(SameCells(Leaves(ty), a, b))
    decreases Depth(ty), 1, 0
  {
    if ty.Array? || ty.Struct? {
      KidsBelow(ty);
      LeavesOfKids(ty);
      ComparableKids(ty);
      OpensLoopKids(ty);
      PlainEqualityAll(env, mem, Depth(ty), Kids(ty), a, b);
      hide SemEqAll, MemOk, ValOk, Kids, SameCells;
    } else {
      PlainLeaf(env, mem, ty, a, b);
    }
  }

  lemma PlainLeaf(env: Env, mem: Mem, ty: Ty, a: Val, b: Val)
    requires MemOk(env, mem) && Comparable(ty) && !OpensLoop(ty) && !ty.Array? && !ty.Struct?
    requires ValOk(a, Leaves(ty)) && ValOk(b, Leaves(ty)) && Defined(a) && Defined(b)
    ensures SemEq(env, mem, ty, a, b) == Some(SameCells(Leaves(ty), a, b))
  {
    hide SemEqAll, SemEqUpTo, MemOk, IsNaN, Key, IsFloat;
    assert a == [a[0]] && b == [b[0]];
    assert ScalarOk(a[0], Leaves(ty)[0]) && ScalarOk(b[0], Leaves(ty)[0]);
    assert SameCells(Leaves(ty), a, b) == SameCell(Leaves(ty)[0], a[0], b[0]);
  }

  lemma {:induction false} PlainEqualityAll(env: Env, mem: Mem, d: nat, tys: seq<Ty>, a: Val, b: Val)
    requires MemOk(env, mem) && DepthBelow(tys, d) && ComparableAll(tys) && !OpensLoopAny(tys)
    requires ValOk(a, LeavesAll(tys)) && ValOk(b, LeavesAll(tys)) && Defined(a) && Defined(b)
    ensures SemEqAll(env, mem, d, tys, a, b) == Some(SameCells(LeavesAll(tys), a, b))
    decreases d, 0, |tys|
  {
    hide SemEq, SemEqAll, MemOk, ValOk, Defined, Leaves, LeavesAll, Size, Depth, Comparable, OpensLoop, SameCells;
    if tys == [] {
      EqAllNilSem(env, mem, d, a, b);
    } else {
      var n := Size(tys[0]);
      EqAllConsSem(env, mem, d, tys, a, b);
      DefinedSplit(a, n);
      DefinedSplit(b, n);
      PlainEquality(env, mem, tys[0], a[..n], b[..n]);
      PlainEqualityAll(env, mem, d, tys[1..], a[n..], b[n..]);
      SameCellsSplit(tys, a, b);
    }
  }

  lemma DefinedSplit(a: Val, n: nat)
    requires Defined(a) && n <= |a|
    ensures Defined(a[..n]) && Defined(a[n..])
  {
  }

  lemma EqAllConsSem(env: Env, mem: Mem, d: nat, tys: seq<Ty>, a: Val, b: Val)
    requires MemOk(env, mem) && tys != [] && DepthBelow(tys, d) && ValOk(a, LeavesAll(tys)) && ValOk(b, LeavesAll(tys))
    ensures var n := Size(tys[0]);
            && n <= |a| && n <= |b| && DepthBelow(tys[1..], d)
            && ValOk(a[..n], Leaves(tys[0])) && ValOk(b[..n], Leaves(tys[0]))
            && ValOk(a[n..], LeavesAll(tys[1..])) && ValOk(b[n..], LeavesAll(tys[1..]))
            && var head := SemEq(env, mem, tys[0], a[..n], b[..n]);
               var tail := SemEqAll(env, mem, d, tys[1..], a[n..], b[n..]);
               SemEqAll(env, mem, d, tys, a, b) ==
               if head.Some? && tail.Some? then Some(head.value && tail.value) else None
  {
    ValOkSplit(a, Leaves(tys[0]), LeavesAll(tys[1..]));
    ValOkSplit(b, Leaves(tys[0]), LeavesAll(tys[1..]));
    hide SemEq;
  }

  lemma EqAllNilSem(env: Env, mem: Mem, d: nat, a: Val, b: Val)
    requires MemOk(env, mem) && ValOk(a, LeavesAll([])) && ValOk(b, LeavesAll([]))
    ensures SemEqAll(env, mem, d, [], a, b) == Some(SameCells(LeavesAll([]), a, b))
  {
    assert a == [] && b == [];
  }

  lemma SameCellsSplit(tys: seq<Ty>, a: Val, b: Val)
    requires tys != [] && ValOk(a, LeavesAll(tys)) && ValOk(b, LeavesAll(tys))
    ensures var n := Size(tys[0]);
            && n <= |a| && n <= |b|
            && ValOk(a[..n], Leaves(tys[0])) && ValOk(b[..n], Leaves(tys[0]))
            && ValOk(a[n..], LeavesAll(tys[1..])) && ValOk(b[n..], LeavesAll(tys[1..]))
            && (SameCells(LeavesAll(tys), a, b) <==>
                SameCells(Leaves(tys[0]), a[..n], b[..n]) && SameCells(LeavesAll(tys[1..]), a[n..], b[n..]))
  {
    var l1, l2 := Leaves(tys[0]), LeavesAll(tys[1..]);
    assert LeavesAll(tys) == l1 + l2;
    hide Leaves, LeavesAll;
    SplitSame(l1, l2, a, b);
  }

  lemma SplitSame(l1: seq<Leaf>, l2: seq<Leaf>, a: Val, b: Val)
    requires ValOk(a, l1 + l2) && ValOk(b, l1 + l2)
    ensures var n := |l1|;
            && ValOk(a[..n], l1) && ValOk(b[..n], l1) && ValOk(a[n..], l2) && ValOk(b[n..], l2)
            && (SameCells(l1 + l2, a, b) <==> SameCells(l1, a[..n], b[..n]) && SameCells(l2, a[n..], b[n..]))
  {
    var n := |l1|;
    ValOkSplit(a, l1, l2);
    ValOkSplit(b, l1, l2);
    hide SameCell;
    if SameCells(l1 + l2, a, b) {
      forall i | 0 <= i < |l1| ensures SameCell(l1[i], a[..n][i], b[..n][i]) {
        assert SameCell((l1 + l2)[i], a[i], b[i]);
      }
      forall i | 0 <= i < |l2| ensures SameCell(l2[i], a[n..][i], b[n..][i]) {
        assert SameCell((l1 + l2)[n + i], a[n + i], b[n + i]);
      }
    }
    if SameCells(l1, a[..n], b[..n]) && SameCells(l2, a[n..], b[n..]) {
      forall i | 0 <= i < |l1 + l2| ensures SameCell((l1 + l2)[i], a[i], b[i]) {
        if i < n {
          assert SameCell(l1[i], a[..n][i], b[..n][i]);
        } else {
          assert SameCell(l2[i - n], a[n..][i - n], b[n..][i - n]);
        }
      }
    }
  }

  /** A value equals itself exactly when no float in it is a NaN; without floats, only equal values are
      the same. */
  lemma SameCellsMeans(ls: seq<Leaf>, a: Val, b: Val)
    requires ValOk(a, ls) && ValOk(b, ls)
    ensures SameCells(ls, a, a) <==> NoNaN(ls, a)
    ensures NoNaN(ls, a) && a == b ==> SameCells(ls, a, b)
    ensures (forall i :: 0 <= i < |ls| ==> !ls[i].LFloat?) ==> (SameCells(ls, a, b) <==> a == b)
  {
    hide IsNaN, Key;
    if !NoNaN(ls, a) {
      var i :| 0 <= i < |ls| && ls[i].LFloat? && a[i].SFloat? && IsNaNCell(ls[i], a[i]);
      assert !SameCell(ls[i], a[i], a[i]);
    }
    if SameCells(ls, a, b) && forall i :: 0 <= i < |ls| ==> !ls[i].LFloat? {
      forall i | 0 <= i < |ls| ensures a[i] == b[i] {
        assert SameCell(ls[i], a[i], b[i]);
      }
    }
  }

  /** Two slices are equal exactly when they have one length and their elements are pairwise equal. */
  lemma SliceEquality(env: Env, mem: Mem, item: Ty, a: Val, b: Val)
    requires MemOk(env, mem) && ValOk(a, Leaves(Slice(item))) && ValOk(b, Leaves(Slice(item)))
    requires SemEq(env, mem, Slice(item), a, b).Some?
    ensures a[0].SPtr? && b[0].SPtr? && a[1].SInt? && b[1].SInt?
    ensures SemEq(env, mem, Slice(item), a, b).value <==>
            a[1].n == b[1].n && forall i :: 0 <= i < a[1].n ==> ItemsEqual(env, mem, item, a[0].a, b[0].a, i)
  {
    assert ScalarOk(a[1], Leaves(Slice(item))[1]);
    if a[1].n == b[1].n {
      UpToMeans(env, mem, item, a[0].a, b[0].a, a[1].n);
    }
  }

  ghost predicate ItemsEqual(env: Env, mem: Mem, item: Ty, p: Addr, q: Addr, i: nat)
    requires MemOk(env, mem)
  {
    var x, y := Load(env, mem, Item(p, item, i), item), Load(env, mem, Item(q, item, i), item);
    x.Some? && y.Some? && SemEq(env, mem, item, x.value, y.value) == Some(true)
  }

  lemma {:induction false} UpToMeans(env: Env, mem: Mem, item: Ty, p: Addr, q: Addr, n: nat)
    requires MemOk(env, mem) && SemEqUpTo(env, mem, item, p, q, n).Some?
    ensures SemEqUpTo(env, mem, item, p, q, n).value <==> forall i :: 0 <= i < n ==> ItemsEqual(env, mem, item, p, q, i)
    decreases n
  {
    hide *;
    if n == 0 {
      UpToNone(env, mem, item, p, q);
    } else {
      UpToDefined(env, mem, item, p, q, n - 1, n);
      UpToMeans(env, mem, item, p, q, n - 1);
      var acc := SemEqUpTo(env, mem, item, p, q, n - 1).value;
      var x, y, here := UpToNext(env, mem, item, p, q, n - 1, n, acc);
      ItemsEqualIs(env, mem, item, p, q, n - 1, x, y, here);
    }
  }

  lemma UpToNone(env: Env, mem: Mem, item: Ty, p: Addr, q: Addr)
    requires MemOk(env, mem)
    ensures SemEqUpTo(env, mem, item, p, q, 0) == Some(true)
  {
    hide MemOk;
  }

  lemma ItemsEqualIs(env: Env, mem: Mem, item: Ty, p: Addr, q: Addr, i: nat, x: Val, y: Val, here: bool)
    requires MemOk(env, mem) && Load(env, mem, Item(p, item, i), item) == Some(x)
    requires Load(env, mem, Item(q, item, i), item) == Some(y)
    requires SemEq(env, mem, item, x, y) == Some(here)
    ensures ItemsEqual(env, mem, item, p, q, i) == here
  {
    hide MemOk, ValOk, Load, SemEq, Item;
  }

  // ----- where the emitted loop is not well formed -----

  /** The phi nodes of a loop head name the block the body starts in.  The block that really jumps back
      is that one exactly when comparing two elements opens no loop of its own.  Otherwise the jump back
      has no value for the phi nodes, and the emitted code cannot go on. */
  lemma BackEdge(e: Em, item: Ty, l: Opnd, r: Opnd)
    requires Ready(e)
    ensures var h := |e.blocks|;
            var f := EmitEq(SliceOpen(e, item, l, r), item, Reg(e.next + 11), Reg(e.next + 12)).0;
            var out := EmitEq(e, Slice(item), l, r).0;
            && f.cur < |out.blocks| && h < |out.blocks|
            && out.blocks[f.cur].term == Br(h)
            && out.blocks[h] == ClosedHead(e.next, h, e.cur, f.next + 1, f.next)
            && (f.cur == h + 1 <==> !OpensLoop(item))
            && (OpensLoop(item) ==> forall regs, mem :: Enter(out.blocks, f.cur, h, regs, mem) == None)
  {
    hide *;
    var h := |e.blocks|;
    var o := SliceOpen(e, item, l, r);
    var (f, here) := EmitEq(o, item, Reg(e.next + 11), Reg(e.next + 12));
    var out := EmitEq(e, Slice(item), l, r).0;
    EmitEqSlice(e, item, l, r);
    SliceGrows(e, o, f, here);
    CurBelow(e);
    WithinSelf(out);
    CloseLoopDone(e, f, e.cur, h, e.next, here, CodeOf(out));
    CloseLoopWithin(f, e.cur, h, e.next, here, CodeOf(out));
    EmitEqStraight(o, item, Reg(e.next + 11), Reg(e.next + 12));
    CodeBlocks(out);
    if OpensLoop(item) {
      forall regs, mem ensures Enter(out.blocks, f.cur, h, regs, mem) == None {
        NoIncoming(out.blocks, e.next, h, e.cur, f.next + 1, f.next, f.cur, regs, mem);
      }
    }
  }

  lemma CurBelow(e: Em)
    requires Ready(e)
    ensures e.cur < |e.blocks|
  {
  }

  lemma CodeBlocks(e: Em)
    ensures CodeOf(e).blocks == e.blocks
  {
  }

  lemma NoIncoming(g: Graph, base: nat, h: nat, from: nat, iNext: nat, accNext: nat, src: nat, regs: Regs, mem: TMem)
    requires h < |g| && g[h] == ClosedHead(base, h, from, iNext, accNext) && src != from && src != h + 1
    ensures Enter(g, src, h, regs, mem) == None
  {
    IncomingOf(g[h].phis[0].incoming, src);
  }

  lemma GrowsIsWithin(e: Em, r: Em)
    requires Grows(e, r) && Ready(e)
    ensures Within(e, CodeOf(r))
  {
  }

  lemma WithinSelf(e: Em)
    ensures Within(e, CodeOf(e))
  {
  }
}
