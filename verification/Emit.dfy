/**
 What the code generator emits for the places, operands, rvalues, statements and terminators of a
 function, as functions on the state of its builder.  Code only ever grows: blocks are appended,
 instructions are added to the end of the current block, and a terminated block is never touched
 again, except that the phi nodes of a loop head receive their incoming values when the loop closes.
 */
module Emit {
  import opened Wrappers
  import opened Arith
  import opened Mir
  import opened BlockGraph

  /** The builder: blocks so far, the block being filled, the next free register and the scratch
      slots (with their sizes) allocated in the entry block. */
  datatype Em = Em(blocks: seq<TBlock>, cur: nat, next: nat, scratch: seq<nat>)

  /** The finished code of a function. */
  datatype Code = Code(blocks: Graph, scratch: seq<nat>)

  function CodeOf(e: Em): Code {
    Code(e.blocks, e.scratch)
  }

  predicate Ready(e: Em) {
    e.cur < |e.blocks| && e.blocks[e.cur].term.Open?
  }

  predicate Unfilled(phis: seq<Phi>) {
    phis != [] && phis[0].incoming == []
  }

  predicate BlockLe(p: TBlock, q: TBlock) {
    && (p.phis == q.phis || Unfilled(p.phis))
    && p.instrs <= q.instrs
    && (p.term.Open? || (p.term == q.term && p.instrs == q.instrs))
  }

  /** The code emitted so far survives in `c`. */
  predicate Within(e: Em, c: Code) {
    && |e.blocks| <= |c.blocks|
    && e.scratch <= c.scratch
    && forall b :: 0 <= b < |e.blocks| ==> BlockLe(e.blocks[b], c.blocks[b])
  }

  /** Emission from `e` to `f` adds to the current block and appends blocks; it changes nothing else. */
  predicate Grows(e: Em, f: Em) {
    && e.next <= f.next
    && e.scratch <= f.scratch
    && e.cur < |e.blocks| <= |f.blocks|
    && (f.cur == e.cur || f.cur >= |e.blocks|)
    && (forall b :: 0 <= b < |e.blocks| && b != e.cur ==> f.blocks[b] == e.blocks[b])
    && f.blocks[e.cur].phis == e.blocks[e.cur].phis
    && e.blocks[e.cur].instrs <= f.blocks[e.cur].instrs
  }

  lemma GrowsTrans(e: Em, f: Em, h: Em)
    requires Grows(e, f) && Grows(f, h)
    ensures Grows(e, h)
  {
  }

  lemma WithinTrans(e: Em, f: Em, c: Code)
    requires Ready(e) && Grows(e, f) && Within(f, c)
    ensures Within(e, c)
  {
    forall b | 0 <= b < |e.blocks| ensures BlockLe(e.blocks[b], c.blocks[b]) {
      assert BlockLe(f.blocks[b], c.blocks[b]);
    }
  }

  // ----- the builder -----

  function Push(e: Em, i: Instr): (f: Em)
    requires Ready(e)
    ensures Ready(f) && Grows(e, f) && f.cur == e.cur && f.next == e.next && |f.blocks| == |e.blocks|
  {
    var b := e.blocks[e.cur];
    e.(blocks := e.blocks[e.cur := b.(instrs := b.instrs + [i])])
  }

  /** Emit an instruction that defines the next free register. */
  function Def(e: Em, i: Instr): (r: (Em, Opnd))
    requires Ready(e)
    ensures Ready(r.0) && Grows(e, r.0) && r.0.cur == e.cur && r.0.next == e.next + 1 && r.1 == Reg(e.next)
    ensures |r.0.blocks| == |e.blocks|
  {
    var f := Push(e, i);
    (f.(next := e.next + 1), Reg(e.next))
  }

  function SetTerm(e: Em, t: Term): (f: Em)
    requires Ready(e)
    ensures Grows(e, f) && f.cur == e.cur && f.next == e.next
  {
    e.(blocks := e.blocks[e.cur := e.blocks[e.cur].(term := t)])
  }

  const EMPTY_BLOCK: TBlock := TBlock([], [], Open)

  /** The address of a root. */
  function RootPtr(root: nat): Opnd {
    Lit([CPtr(At(root, 0))])
  }

  // ----- places -----

  function EmitStep(env: Env, e: Em, p: Opnd, ty: Ty, elem: Elem): (r: (Em, Opnd))
    requires Ready(e) && StepTy(env, ty, elem).Some?
    ensures Ready(r.0) && Grows(e, r.0) && r.0.cur == e.cur
  {
    match elem
    case Field(i) => Def(e, GepConst(e.next, p, KidOff(ty, i)))
    case Index(l) =>
      if ty.Array? then
        var (e1, i) := Def(e, LoadCells(e.next, RootPtr(l), 1));
        GrowsTrans(e, e1, Def(e1, GepScaled(e1.next, p, i, Size(ty.elem))).0);
        Def(e1, GepScaled(e1.next, p, i, Size(ty.elem)))
      else
        var (e1, b) := Def(e, LoadCells(e.next, p, 1));
        var (e2, i) := Def(e1, LoadCells(e1.next, RootPtr(l), 1));
        GrowsTrans(e, e1, e2);
        GrowsTrans(e, e2, Def(e2, GepScaled(e2.next, b, i, Size(ty.item))).0);
        Def(e2, GepScaled(e2.next, b, i, Size(ty.item)))
    case Deref => Def(e, LoadCells(e.next, p, 1))
  }

  function EmitProj(env: Env, e: Em, p: Opnd, ty: Ty, proj: seq<Elem>): (r: (Em, Opnd))
    requires Ready(e) && TyFrom(env, ty, proj).Some?
    ensures Ready(r.0) && Grows(e, r.0) && r.0.cur == e.cur
    decreases |proj|
  {
    if proj == [] then (e, p)
    else
      var (e1, q) := EmitStep(env, e, p, ty, proj[0]);
      var r := EmitProj(env, e1, q, StepTy(env, ty, proj[0]).value, proj[1..]);
      GrowsTrans(e, e1, r.0);
      r
  }

  function EmitPlace(env: Env, e: Em, p: Place): (r: (Em, Opnd))
    requires Ready(e) && PlaceTy(env, p).Some?
    ensures Ready(r.0) && Grows(e, r.0) && r.0.cur == e.cur
  {
    EmitProj(env, e, RootPtr(p.root), env.roots[p.root], p.proj)
  }

  // ----- operands -----

  function EmitLoad(env: Env, e: Em, p: Place): (r: (Em, Opnd))
    requires Ready(e) && PlaceTy(env, p).Some?
    ensures Ready(r.0) && Grows(e, r.0) && r.0.cur == e.cur
  {
    var (e1, a) := EmitPlace(env, e, p);
    var r := Def(e1, LoadCells(e1.next, a, Size(PlaceTy(env, p).value)));
    GrowsTrans(e, e1, r.0);
    r
  }

  function EmitOperand(env: Env, e: Em, o: Operand, ty: Ty): (r: (Em, Opnd))
    requires Ready(e) && OperandOk(env, o, ty)
    ensures Ready(r.0) && Grows(e, r.0) && r.0.cur == e.cur
  {
    match o
    case Copy(p) => EmitLoad(env, e, p)
    case ConstInt(n) => (e, Lit([Bits(ty.bits, n % Pow2(ty.bits))]))
    case ConstBool(b) => (e, Lit(BoolCell(b)))
    case ConstNull => (e, Lit([CPtr(Null)]))
  }

  // ----- structural equality -----

  function EmitEq(e: Em, ty: Ty, l: Opnd, r: Opnd): (q: (Em, Opnd))
    requires Ready(e)
    ensures Ready(q.0) && Grows(e, q.0)
    decreases Depth(ty), 1, 0
  {
    hide Ready, Grows, SliceOpen, SliceClose, Def, Kids, DepthBelow;
    match ty
    case Array(_, _) =>
      KidsBelow(ty);
      var (f, acc) := EmitEqAll(e, Depth(ty), Kids(ty), 0, l, r, None);
      (f, if acc.Some? then acc.value else Lit(BoolCell(true)))
    case Struct(_) =>
      KidsBelow(ty);
      var (f, acc) := EmitEqAll(e, Depth(ty), Kids(ty), 0, l, r, None);
      (f, if acc.Some? then acc.value else Lit(BoolCell(true)))
    case Slice(item) =>
      var e1 := SliceOpen(e, item, l, r);
      var (e2, here) := EmitEq(e1, item, Reg(e.next + 11), Reg(e.next + 12));
      SliceGrows(e, e1, e2, here);
      SliceClose(e2, e.cur, |e.blocks|, e.next, here)
    case Float(_) => Def(e, Fcmp(e.next, OEQ, l, r))
    case _ => Def(e, Icmp(e.next, EQ, l, r))
  }

  /** Compare the members of two aggregates in order, folding the results with `and`. */
  function EmitEqAll(e: Em, d: nat, tys: seq<Ty>, off: nat, l: Opnd, r: Opnd, acc: Option<Opnd>)
      : (q: (Em, Option<Opnd>))
    requires Ready(e) && DepthBelow(tys, d)
    ensures Ready(q.0) && Grows(e, q.0)
    decreases d, 0, |tys|
  {
    if tys == [] then (e, acc)
    else
      var n := Size(tys[0]);
      var (e1, a) := Def(e, Extract(e.next, l, off, n));
      var (e2, b) := Def(e1, Extract(e1.next, r, off, n));
      var (e3, here) := EmitEq(e2, tys[0], a, b);
      var (e4, next) := EmitAnd(e3, acc, here);
      var q := EmitEqAll(e4, d, tys[1..], off + n, l, r, Some(next));
      GrowsTrans(e, e1, e2); GrowsTrans(e, e2, e3); GrowsTrans(e, e3, e4); GrowsTrans(e, e4, q.0);
      q
  }

  function EmitAnd(e: Em, acc: Option<Opnd>, here: Opnd): (r: (Em, Opnd))
    requires Ready(e)
    ensures Ready(r.0) && Grows(e, r.0) && r.0.cur == e.cur
  {
    if acc.None? then (e, here) else Def(e, Bin(e.next, IAnd, acc.value, here))
  }

  /** The code that takes both pointers and both lengths out of the slices. */
  function SliceExtracts(e: Em, l: Opnd, r: Opnd): (f: Em)
    requires Ready(e)
    ensures Ready(f) && Grows(e, f) && f.cur == e.cur && f.next == e.next + 4 && |f.blocks| == |e.blocks|
  {
    var e1 := Def(e, Extract(e.next, l, 0, 1)).0;
    var e2 := Def(e1, Extract(e.next + 1, r, 0, 1)).0;
    var e3 := Def(e2, Extract(e.next + 2, l, 1, 1)).0;
    var f := Def(e3, Extract(e.next + 3, r, 1, 1)).0;
    GrowsTrans(e, e1, e2); GrowsTrans(e, e2, e3); GrowsTrans(e, e3, f);
    f
  }

  /** Pointers and lengths of both slices; how many elements to walk: none if the lengths differ. */
  function SlicePrelude(e: Em, l: Opnd, r: Opnd): (f: Em)
    requires Ready(e)
    ensures Ready(f) && Grows(e, f) && f.cur == e.cur && f.next == e.next + 6 && |f.blocks| == |e.blocks|
  {
    var e4 := SliceExtracts(e, l, r);
    var e5 := Def(e4, Icmp(e.next + 4, EQ, Reg(e.next + 2), Reg(e.next + 3))).0;
    var f := Def(e5, Select(e.next + 5, Reg(e.next + 4), Reg(e.next + 2), Lit([Bits(PTR_BITS, 0)]))).0;
    GrowsTrans(e, e4, e5); GrowsTrans(e, e5, f);
    f
  }

  function HeadBlock(base: nat, body: nat, i: seq<(nat, Opnd)>, acc: seq<(nat, Opnd)>): TBlock {
    TBlock([Phi(base + 6, i), Phi(base + 7, acc)],
           [Icmp(base + 8, ULT, Reg(base + 6), Reg(base + 5))],
           CondBr(Reg(base + 8), body, body + 1))
  }

  /** Leave the current block for a new loop head and start filling the loop body. */
  function OpenLoop(e: Em, base: nat): (f: Em)
    requires Ready(e) && e.next == base + 6
    ensures Ready(f) && Grows(e, f)
    ensures |f.blocks| == |e.blocks| + 3 && f.cur == |e.blocks| + 1 && f.next == base + 9
    ensures f.blocks[|e.blocks|] == HeadBlock(base, |e.blocks| + 1, [], [])
    ensures f.blocks[|e.blocks| + 2] == EMPTY_BLOCK
  {
    var h := |e.blocks|;
    var f := SetTerm(e, Br(h));
    f.(blocks := f.blocks + [HeadBlock(base, h + 1, [], []), EMPTY_BLOCK, EMPTY_BLOCK], cur := h + 1, next := base + 9)
  }

  function LoopLoads(e: Em, base: nat, size: nat): (f: Em)
    requires Ready(e) && e.next == base + 9
    ensures Ready(f) && Grows(e, f) && f.cur == e.cur && f.next == base + 13 && |f.blocks| == |e.blocks|
  {
    var e1 := Def(e, GepScaled(base + 9, Reg(base), Reg(base + 6), size)).0;
    var e2 := Def(e1, GepScaled(base + 10, Reg(base + 1), Reg(base + 6), size)).0;
    var e3 := Def(e2, LoadCells(base + 11, Reg(base + 9), size)).0;
    var f := Def(e3, LoadCells(base + 12, Reg(base + 10), size)).0;
    GrowsTrans(e, e1, e2); GrowsTrans(e, e2, e3); GrowsTrans(e, e3, f);
    f
  }

  /** Both phi nodes of the loop head name the block the loop was entered from and the loop body. */
  function ClosedHead(base: nat, h: nat, from: nat, iNext: nat, accNext: nat): TBlock {
    HeadBlock(base, h + 1,
              [(from, Lit([Bits(PTR_BITS, 0)])), (h + 1, Reg(iNext))],
              [(from, Lit(BoolCell(true))), (h + 1, Reg(accNext))])
  }

  /** The code at the end of a loop body: fold the result, count, jump back. */
  function LoopStep(e: Em, base: nat, here: Opnd): (f: Em)
    requires Ready(e)
    ensures Ready(f) && Grows(e, f) && f.cur == e.cur && f.next == e.next + 2
  {
    var e1 := Def(e, Bin(e.next, IAnd, Reg(base + 7), here)).0;
    var e2 := Def(e1, Bin(e1.next, IAdd, Reg(base + 6), Lit([Bits(PTR_BITS, 1)]))).0;
    GrowsTrans(e, e1, e2);
    e2
  }

  function CloseLoop(e: Em, from: nat, h: nat, base: nat, here: Opnd): (f: Em)
    requires Ready(e) && h + 2 < |e.blocks|
  {
    var f := SetTerm(LoopStep(e, base, here), Br(h));
    f.(blocks := f.blocks[h := ClosedHead(base, h, from, e.next + 1, e.next)], cur := h + 2)
  }

  /** Everything emitted for a slice comparison before its elements are compared. */
  function SliceOpen(e: Em, item: Ty, l: Opnd, r: Opnd): (f: Em)
    requires Ready(e)
    ensures Ready(f) && Grows(e, f)
    ensures f.cur == |e.blocks| + 1 && f.next == e.next + 13 && |f.blocks| == |e.blocks| + 3
    ensures f.blocks[|e.blocks|] == HeadBlock(e.next, |e.blocks| + 1, [], [])
    ensures f.blocks[|e.blocks| + 2] == EMPTY_BLOCK
  {
    var e1 := SlicePrelude(e, l, r);
    var e2 := OpenLoop(e1, e.next);
    var e3 := LoopLoads(e2, e.next, Size(item));
    GrowsTrans(e, e1, e2); GrowsTrans(e, e2, e3);
    e3
  }

  /** Everything emitted after the elements were compared; the result also needs equal lengths. */
  function SliceClose(e: Em, from: nat, h: nat, base: nat, here: Opnd): (Em, Opnd)
    requires Ready(e) && h + 2 < |e.blocks| && Ready(CloseLoop(e, from, h, base, here))
  {
    var f := CloseLoop(e, from, h, base, here);
    Def(f, Bin(f.next, IAnd, Reg(base + 4), Reg(base + 7)))
  }

  lemma SliceGrows(e: Em, e1: Em, e2: Em, here: Opnd)
    requires Ready(e) && Grows(e, e1) && Ready(e2) && Grows(e1, e2)
    requires e1.cur == |e.blocks| + 1 && |e1.blocks| == |e.blocks| + 3 && e1.next == e.next + 13
    requires e1.blocks[|e.blocks|] == HeadBlock(e.next, |e.blocks| + 1, [], [])
    requires e1.blocks[|e.blocks| + 2] == EMPTY_BLOCK
    ensures var h := |e.blocks|;
            && h < e2.cur && e2.cur != h + 2 && h + 2 < |e2.blocks|
            && e2.blocks[h] == HeadBlock(e.next, h + 1, [], [])
            && e2.blocks[h + 2] == EMPTY_BLOCK && e2.blocks[h + 2].term.Open?
            && Ready(CloseLoop(e2, e.cur, h, e.next, here))
            && Ready(SliceClose(e2, e.cur, h, e.next, here).0)
            && Grows(e, SliceClose(e2, e.cur, h, e.next, here).0)
  {
    var h := |e.blocks|;
    GrowsTrans(e, e1, e2);
    CloseLoopGrows(e, e2, e.cur, h, e.next, here);
    GrowsTrans(e, CloseLoop(e2, e.cur, h, e.next, here), SliceClose(e2, e.cur, h, e.next, here).0);
  }

  lemma CloseLoopGrows(e: Em, e2: Em, from: nat, h: nat, base: nat, here: Opnd)
    requires Ready(e2) && Grows(e, e2) && h + 2 < |e2.blocks|
    requires |e.blocks| <= h && h < e2.cur && e2.cur != h + 2 && e2.blocks[h + 2].term.Open?
    ensures var f := CloseLoop(e2, from, h, base, here);
            Ready(f) && Grows(e, f) && f.cur == h + 2 && f.next == e2.next + 2
  {
  }

  /** Code that contains a closed loop contains everything emitted before it was closed. */
  lemma CloseLoopWithin(e4: Em, from: nat, h: nat, base: nat, here: Opnd, c: Code)
    requires Ready(e4) && h + 2 < |e4.blocks| && h < e4.cur && e4.cur != h + 2
    requires e4.blocks[h] == HeadBlock(base, h + 1, [], [])
    requires Within(CloseLoop(e4, from, h, base, here), c)
    ensures Within(LoopStep(e4, base, here), c)
    ensures c.blocks[h] == ClosedHead(base, h, from, e4.next + 1, e4.next)
    ensures c.blocks[e4.cur].term == Br(h) && c.blocks[e4.cur].instrs == LoopStep(e4, base, here).blocks[e4.cur].instrs
  {
    var f := CloseLoop(e4, from, h, base, here);
    var s := LoopStep(e4, base, here);
    assert s.blocks[h] == e4.blocks[h];
    assert BlockLe(f.blocks[h], c.blocks[h]);
    assert BlockLe(f.blocks[e4.cur], c.blocks[e4.cur]);
    forall b | 0 <= b < |s.blocks| ensures BlockLe(s.blocks[b], c.blocks[b]) {
      assert BlockLe(f.blocks[b], c.blocks[b]);
    }
  }

  // ----- unfolding equations -----

  lemma EmitEqSlice(e: Em, item: Ty, l: Opnd, r: Opnd)
    requires Ready(e)
    ensures var e1 := SliceOpen(e, item, l, r);
            var (e2, here) := EmitEq(e1, item, Reg(e.next + 11), Reg(e.next + 12));
            && Ready(e2) && |e.blocks| + 2 < |e2.blocks|
            && Ready(CloseLoop(e2, e.cur, |e.blocks|, e.next, here))
            && EmitEq(e, Slice(item), l, r) == SliceClose(e2, e.cur, |e.blocks|, e.next, here)
  {
    hide Def, Push, Grows, SliceOpen, SliceClose, CloseLoop, HeadBlock;
    var e1 := SliceOpen(e, item, l, r);
    var (e2, here) := EmitEq(e1, item, Reg(e.next + 11), Reg(e.next + 12));
    SliceGrows(e, e1, e2, here);
  }

  lemma EmitEqMembers(e: Em, ty: Ty, l: Opnd, r: Opnd)
    requires Ready(e) && (ty.Array? || ty.Struct?)
    ensures DepthBelow(Kids(ty), Depth(ty))
    ensures var (f, acc) := EmitEqAll(e, Depth(ty), Kids(ty), 0, l, r, None);
            EmitEq(e, ty, l, r) == (f, if acc.Some? then acc.value else Lit(BoolCell(true)))
  {
    KidsBelow(ty);
    hide EmitEqAll, Kids, DepthBelow, Grows;
  }

  lemma EmitEqAllCons(e: Em, d: nat, tys: seq<Ty>, off: nat, l: Opnd, r: Opnd, acc: Option<Opnd>)
    requires Ready(e) && DepthBelow(tys, d) && tys != []
    ensures DepthBelow(tys[1..], d)
    ensures var n := Size(tys[0]);
            var (e1, x) := Def(e, Extract(e.next, l, off, n));
            var (e2, y) := Def(e1, Extract(e1.next, r, off, n));
            var (e3, q) := EmitEq(e2, tys[0], x, y);
            var (e4, next) := EmitAnd(e3, acc, q);
            EmitEqAll(e, d, tys, off, l, r, acc) == EmitEqAll(e4, d, tys[1..], off + n, l, r, Some(next))
  {
    hide Def, EmitEq, EmitAnd, Grows;
  }

  lemma EmitEqAllNil(e: Em, d: nat, off: nat, l: Opnd, r: Opnd, acc: Option<Opnd>)
    requires Ready(e) && DepthBelow([], d)
    ensures EmitEqAll(e, d, [], off, l, r, acc) == (e, acc)
  {
  }

  lemma EmitEqLeaf(e: Em, ty: Ty, l: Opnd, r: Opnd)
    requires Ready(e) && !IsAggregate(ty)
    ensures EmitEq(e, ty, l, r) == Def(e, if ty.Float? then Fcmp(e.next, OEQ, l, r) else Icmp(e.next, EQ, l, r))
  {
    hide Def, Grows;
  }

  lemma ExtractsParts(e: Em, l: Opnd, r: Opnd)
    requires Ready(e)
    ensures var e1 := Def(e, Extract(e.next, l, 0, 1)).0;
            var e2 := Def(e1, Extract(e.next + 1, r, 0, 1)).0;
            var e3 := Def(e2, Extract(e.next + 2, l, 1, 1)).0;
            SliceExtracts(e, l, r) == Def(e3, Extract(e.next + 3, r, 1, 1)).0
  {
    hide Def, Grows;
  }

  lemma PreludeParts(e: Em, l: Opnd, r: Opnd)
    requires Ready(e)
    ensures var b, e4 := e.next, SliceExtracts(e, l, r);
            var e5 := Def(e4, Icmp(b + 4, EQ, Reg(b + 2), Reg(b + 3))).0;
            SlicePrelude(e, l, r) == Def(e5, Select(b + 5, Reg(b + 4), Reg(b + 2), Lit([Bits(PTR_BITS, 0)]))).0
  {
    hide Def, Push, Grows;
  }

  lemma LoopLoadsParts(e0: Em, b: nat, size: nat)
    requires Ready(e0) && e0.next == b + 9
    ensures var e1 := Def(e0, GepScaled(b + 9, Reg(b), Reg(b + 6), size)).0;
            var e2 := Def(e1, GepScaled(b + 10, Reg(b + 1), Reg(b + 6), size)).0;
            var e3 := Def(e2, LoadCells(b + 11, Reg(b + 9), size)).0;
            LoopLoads(e0, b, size) == Def(e3, LoadCells(b + 12, Reg(b + 10), size)).0
  {
    hide Def, Push, Grows;
  }
}
