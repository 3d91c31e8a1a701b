/**
 How the values of the source are represented in the cells of the emitted code, and the relation
 between a source memory and a target memory.
 */
module Encode {
  import opened Wrappers
  import opened Arith
  import opened Floats
  import opened Mir
  import opened BlockGraph
  import opened Emit

  /** An integer or a float becomes its bit pattern, a truth value one bit, an address itself. */
  function EncS(s: Scalar, l: Leaf): Cell {
    match (s, l)
    case (SInt(n), LInt(w, _)) => Bits(w, n % Pow2(w))
    case (SBool(b), LBool) => Bits(1, if b then 1 else 0)
    case (SFloat(n), LFloat(d)) => Bits(FloatBits(d), n)
    case (SPtr(a), LPtr) => CPtr(a)
    case _ => CUndef
  }

  function Enc(v: Val, ls: seq<Leaf>): (c: Cells)
    requires |v| == |ls|
    ensures |c| == |v| && forall i :: 0 <= i < |c| ==> c[i] == EncS(v[i], ls[i])
  {
    seq(|v|, i requires 0 <= i < |v| => EncS(v[i], ls[i]))
  }

  lemma ValLen(v: Val, ls: seq<Leaf>)
    requires ValOk(v, ls)
    ensures |v| == |ls|
  {
  }

  lemma EncSlice(v: Val, ls: seq<Leaf>, i: nat, j: nat)
    requires |v| == |ls| && i <= j <= |v|
    ensures Enc(v, ls)[i..j] == Enc(v[i..j], ls[i..j])
  {
  }

  lemma EncSplice(v: Val, ls: seq<Leaf>, off: nat, x: Val, xs: seq<Leaf>)
    requires |v| == |ls| && |x| == |xs| && off + |x| <= |v| && ls[off..off + |x|] == xs
    ensures Enc(Splice(v, off, x), ls) == Splice(Enc(v, ls), off, Enc(x, xs))
  {
    assert forall i :: off <= i < off + |x| ==> ls[i] == xs[i - off];
  }

  /** The roots of the source come first, each encoded; the scratch slots of the builder follow. */
  ghost predicate MemRel(env: Env, mem: Mem, tmem: TMem, scratch: seq<nat>) {
    && MemOk(env, mem)
    && |tmem| == |mem| + |scratch|
    && (forall r :: 0 <= r < |mem| ==> tmem[r] == Enc(mem[r], Leaves(env.roots[r])))
    && (forall k :: 0 <= k < |scratch| ==> |tmem[|mem| + k]| == scratch[k])
  }

  lemma LoadRel(env: Env, mem: Mem, tmem: TMem, scratch: seq<nat>, a: Addr, ty: Ty)
    requires MemRel(env, mem, tmem, scratch) && Load(env, mem, a, ty).Some?
    ensures LoadT(tmem, a, Size(ty)) == Some(Enc(Load(env, mem, a, ty).value, Leaves(ty)))
  {
    EncSlice(mem[a.root], Leaves(env.roots[a.root]), a.off, a.off + Size(ty));
  }

  lemma StoreRel(env: Env, mem: Mem, tmem: TMem, scratch: seq<nat>, a: Addr, ty: Ty, v: Val)
    requires MemRel(env, mem, tmem, scratch) && ValOk(v, Leaves(ty)) && Store(env, mem, a, ty, v).Some?
    ensures LoadT(tmem, a, Size(ty)).Some?
    ensures var cells := Splice(tmem[a.root], a.off, Enc(v, Leaves(ty)));
            MemRel(env, Store(env, mem, a, ty, v).value, tmem[a.root := cells], scratch)
  {
    EncSplice(mem[a.root], Leaves(env.roots[a.root]), a.off, v, Leaves(ty));
  }

  // ----- executing emitted code -----

  /** The machine stands where the builder stands. */
  predicate AtEnd(e: Em, t: TState) {
    t.Running? && e.cur < |e.blocks| && t.block == e.cur && t.pc == |e.blocks[e.cur].instrs|
  }

  ghost predicate Sim(c: Code, t0: TState, e: Em, t: TState) {
    AtEnd(e, t) && Reaches(c.blocks, t0, t, 0)
  }

  /** Operand `o` has value `v`, and is a constant or a register below `n`. */
  predicate Known(t: TState, o: Opnd, v: Cells, n: nat) {
    t.Running? && if o.Lit? then o.v == v else o.r < n && o.r in t.regs && t.regs[o.r] == v
  }

  /** Registers below `n` and the memory are as before. */
  predicate Keeps(t: TState, u: TState, n: nat) {
    t.Running? && u.Running? && u.mem == t.mem
    && forall r :: 0 <= r < n && r in t.regs ==> r in u.regs && u.regs[r] == t.regs[r]
  }

  lemma KnownKept(t: TState, u: TState, n: nat, o: Opnd, v: Cells, m: nat)
    requires Known(t, o, v, n) && Keeps(t, u, n) && n <= m
    ensures Known(u, o, v, m)
  {
  }

  lemma KeepsMem(t: TState, u: TState, n: nat)
    requires Keeps(t, u, n)
    ensures t.Running? && u.Running? && u.mem == t.mem
  {
  }

  lemma KeepsLess(t: TState, u: TState, m: nat, n: nat)
    requires Keeps(t, u, n) && m <= n
    ensures Keeps(t, u, m)
  {
  }

  lemma KnownLit(t: TState, o: Opnd, n: nat)
    requires t.Running? && o.Lit?
    ensures Known(t, o, o.v, n)
  {
  }

  lemma KeepsTrans(t: TState, u: TState, w: TState, m: nat, n: nat)
    requires Keeps(t, u, m) && Keeps(u, w, n) && m <= n
    ensures Keeps(t, w, m)
  {
  }

  /** One emitted definition is one step. */
  lemma DefOk(c: Code, t0: TState, e: Em, i: Instr, t: TState) returns (u: TState)
    requires Ready(e) && !i.StoreCells? && i.dst == e.next && Within(Def(e, i).0, c)
    requires Sim(c, t0, e, t) && Result(i, t.regs, t.mem).Some?
    ensures Sim(c, t0, Def(e, i).0, u) && Keeps(t, u, e.next)
    ensures u == t.(pc := t.pc + 1, regs := t.regs[e.next := Result(i, t.regs, t.mem).value])
    ensures Known(u, Def(e, i).1, Result(i, t.regs, t.mem).value, e.next + 1)
  {
    u := t.(pc := t.pc + 1, regs := t.regs[e.next := Result(i, t.regs, t.mem).value]);
    var f := Def(e, i).0;
    assert BlockLe(f.blocks[e.cur], c.blocks[e.cur]);
    assert f.blocks[e.cur].instrs[t.pc] == i;
    assert c.blocks[e.cur].instrs[t.pc] == i;
    ReachesStep(c.blocks, t0, t, u, 0);
  }

  /** One emitted store is one step. */
  lemma StoreOk(c: Code, t0: TState, e: Em, p: Opnd, v: Opnd, a: Addr, x: Cells, t: TState) returns (u: TState)
    requires Ready(e) && Within(Push(e, StoreCells(p, v, |x|)), c) && Sim(c, t0, e, t)
    requires EvalAddr(t.regs, p) == Some(a) && Eval(t.regs, v) == Some(x) && LoadT(t.mem, a, |x|).Some?
    ensures Sim(c, t0, Push(e, StoreCells(p, v, |x|)), u)
    ensures u == t.(pc := t.pc + 1, mem := t.mem[a.root := Splice(t.mem[a.root], a.off, x)])
  {
    u := t.(pc := t.pc + 1, mem := t.mem[a.root := Splice(t.mem[a.root], a.off, x)]);
    var f := Push(e, StoreCells(p, v, |x|));
    assert BlockLe(f.blocks[e.cur], c.blocks[e.cur]);
    assert f.blocks[e.cur].instrs[t.pc] == StoreCells(p, v, |x|);
    assert c.blocks[e.cur].instrs[t.pc] == StoreCells(p, v, |x|);
    ReachesStep(c.blocks, t0, t, u, 0);
  }

  // ----- the same, instruction by instruction -----

  lemma ExtractOk(c: Code, t0: TState, e: Em, o: Opnd, x: Cells, lo: nat, n: nat, t: TState) returns (u: TState)
    requires Ready(e) && Within(Def(e, Extract(e.next, o, lo, n)).0, c) && Sim(c, t0, e, t)
    requires Known(t, o, x, e.next) && lo + n <= |x|
    ensures Sim(c, t0, Def(e, Extract(e.next, o, lo, n)).0, u) && Keeps(t, u, e.next)
    ensures Known(u, Reg(e.next), x[lo..lo + n], e.next + 1)
  {
    u := DefOk(c, t0, e, Extract(e.next, o, lo, n), t);
  }

  lemma IcmpOk(c: Code, t0: TState, e: Em, p: Pred, a: Opnd, b: Opnd, w: nat, x: nat, y: nat, t: TState)
    returns (u: TState)
    requires Ready(e) && Within(Def(e, Icmp(e.next, p, a, b)).0, c) && Sim(c, t0, e, t)
    requires w >= 1 && x < Pow2(w) && y < Pow2(w)
    requires Known(t, a, [Bits(w, x)], e.next) && Known(t, b, [Bits(w, y)], e.next)
    ensures Sim(c, t0, Def(e, Icmp(e.next, p, a, b)).0, u) && Keeps(t, u, e.next)
    ensures Known(u, Reg(e.next), BoolCell(EvalPred(p, w, x, y)), e.next + 1)
  {
    hide EvalPred;
    u := DefOk(c, t0, e, Icmp(e.next, p, a, b), t);
  }

  lemma IcmpPtrOk(c: Code, t0: TState, e: Em, p: Pred, a: Opnd, b: Opnd, x: Addr, y: Addr, t: TState)
    returns (u: TState)
    requires Ready(e) && Within(Def(e, Icmp(e.next, p, a, b)).0, c) && Sim(c, t0, e, t) && (p.EQ? || p.NE?)
    requires Known(t, a, [CPtr(x)], e.next) && Known(t, b, [CPtr(y)], e.next)
    ensures Sim(c, t0, Def(e, Icmp(e.next, p, a, b)).0, u) && Keeps(t, u, e.next)
    ensures Known(u, Reg(e.next), BoolCell((x == y) == p.EQ?), e.next + 1)
  {
    u := DefOk(c, t0, e, Icmp(e.next, p, a, b), t);
  }

  lemma FcmpOk(c: Code, t0: TState, e: Em, p: FPred, a: Opnd, b: Opnd, double: bool, x: nat, y: nat, t: TState)
    returns (u: TState)
    requires Ready(e) && Within(Def(e, Fcmp(e.next, p, a, b)).0, c) && Sim(c, t0, e, t)
    requires IsFloat(double, x) && IsFloat(double, y)
    requires Known(t, a, [Bits(FloatBits(double), x)], e.next) && Known(t, b, [Bits(FloatBits(double), y)], e.next)
    ensures Sim(c, t0, Def(e, Fcmp(e.next, p, a, b)).0, u) && Keeps(t, u, e.next)
    ensures Known(u, Reg(e.next), BoolCell(EvalFPred(p, double, x, y)), e.next + 1)
  {
    hide EvalFPred, Pow2;
    u := DefOk(c, t0, e, Fcmp(e.next, p, a, b), t);
  }

  lemma FnegOk(c: Code, t0: TState, e: Em, a: Opnd, double: bool, x: nat, t: TState) returns (u: TState)
    requires Ready(e) && Within(Def(e, Fneg(e.next, a)).0, c) && Sim(c, t0, e, t)
    requires IsFloat(double, x) && Known(t, a, [Bits(FloatBits(double), x)], e.next)
    ensures Sim(c, t0, Def(e, Fneg(e.next, a)).0, u) && Keeps(t, u, e.next)
    ensures Known(u, Reg(e.next), [Bits(FloatBits(double), FloatNeg(double, x))], e.next + 1)
  {
    hide FloatNeg, Pow2;
    u := DefOk(c, t0, e, Fneg(e.next, a), t);
  }

  lemma SelectOk(c: Code, t0: TState, e: Em, k: Opnd, a: Opnd, b: Opnd, yes: bool, x: Cells, y: Cells, t: TState)
    returns (u: TState)
    requires Ready(e) && Within(Def(e, Select(e.next, k, a, b)).0, c) && Sim(c, t0, e, t)
    requires Known(t, k, BoolCell(yes), e.next) && Known(t, a, x, e.next) && Known(t, b, y, e.next)
    ensures Sim(c, t0, Def(e, Select(e.next, k, a, b)).0, u) && Keeps(t, u, e.next)
    ensures Known(u, Reg(e.next), if yes then x else y, e.next + 1)
  {
    u := DefOk(c, t0, e, Select(e.next, k, a, b), t);
  }

  lemma BinOk(c: Code, t0: TState, e: Em, op: IrOp, a: Opnd, b: Opnd, w: nat, x: nat, y: nat, t: TState)
    returns (u: TState)
    requires Ready(e) && Within(Def(e, Bin(e.next, op, a, b)).0, c) && Sim(c, t0, e, t)
    requires w >= 1 && x < Pow2(w) && y < Pow2(w) && EvalIr(op, w, x, y).Some?
    requires Known(t, a, [Bits(w, x)], e.next) && Known(t, b, [Bits(w, y)], e.next)
    ensures Sim(c, t0, Def(e, Bin(e.next, op, a, b)).0, u) && Keeps(t, u, e.next)
    ensures Known(u, Reg(e.next), [Bits(w, EvalIr(op, w, x, y).value)], e.next + 1)
  {
    hide EvalIr;
    u := DefOk(c, t0, e, Bin(e.next, op, a, b), t);
  }

  lemma GepConstOk(c: Code, t0: TState, e: Em, p: Opnd, off: nat, a: Addr, t: TState) returns (u: TState)
    requires Ready(e) && Within(Def(e, GepConst(e.next, p, off)).0, c) && Sim(c, t0, e, t)
    requires a.At? && Known(t, p, [CPtr(a)], e.next)
    ensures Sim(c, t0, Def(e, GepConst(e.next, p, off)).0, u) && Keeps(t, u, e.next)
    ensures Known(u, Reg(e.next), [CPtr(At(a.root, a.off + off))], e.next + 1)
  {
    u := DefOk(c, t0, e, GepConst(e.next, p, off), t);
  }

  lemma GepScaledOk(c: Code, t0: TState, e: Em, p: Opnd, index: Opnd, scale: nat, a: Addr, i: nat, t: TState)
    returns (u: TState)
    requires Ready(e) && Within(Def(e, GepScaled(e.next, p, index, scale)).0, c) && Sim(c, t0, e, t)
    requires a.At? && Known(t, p, [CPtr(a)], e.next)
    requires i < Pow2(PTR_BITS) && Known(t, index, [Bits(PTR_BITS, i)], e.next)
    ensures Sim(c, t0, Def(e, GepScaled(e.next, p, index, scale)).0, u) && Keeps(t, u, e.next)
    ensures Known(u, Reg(e.next), [CPtr(At(a.root, a.off + i * scale))], e.next + 1)
  {
    u := DefOk(c, t0, e, GepScaled(e.next, p, index, scale), t);
  }

  /** A load of a whole source value. */
  lemma LoadOk(c: Code, t0: TState, e: Em, p: Opnd, env: Env, mem: Mem, a: Addr, ty: Ty, t: TState) returns (u: TState)
    requires Ready(e) && Within(Def(e, LoadCells(e.next, p, Size(ty))).0, c) && Sim(c, t0, e, t)
    requires MemRel(env, mem, t.mem, c.scratch) && Load(env, mem, a, ty).Some? && Known(t, p, [CPtr(a)], e.next)
    ensures Sim(c, t0, Def(e, LoadCells(e.next, p, Size(ty))).0, u) && Keeps(t, u, e.next)
    ensures Known(u, Reg(e.next), Enc(Load(env, mem, a, ty).value, Leaves(ty)), e.next + 1)
  {
    LoadRel(env, mem, t.mem, c.scratch, a, ty);
    u := DefOk(c, t0, e, LoadCells(e.next, p, Size(ty)), t);
  }

  lemma ConvertOk(c: Code, t0: TState, e: Em, k: Resize, to: Width, o: Opnd, w: nat, x: nat, t: TState)
    returns (u: TState)
    requires Ready(e) && Within(Def(e, Convert(e.next, k, to, o)).0, c) && Sim(c, t0, e, t)
    requires w >= 1 && x < Pow2(w) && Known(t, o, [Bits(w, x)], e.next)
    ensures Sim(c, t0, Def(e, Convert(e.next, k, to, o)).0, u) && Keeps(t, u, e.next)
    ensures Known(u, Reg(e.next), [Bits(to, EvalResize(k, w, to, x))], e.next + 1)
  {
    hide EvalResize;
    u := DefOk(c, t0, e, Convert(e.next, k, to, o), t);
  }
}
