/**
 What is emitted for operators, conversions, aggregates, statements, terminators and whole functions.
 */
module EmitFn {
  import opened Wrappers
  import opened Arith
  import opened Mir
  import opened BlockGraph
  import opened Emit

  // ----- operators -----

  /** The instruction for an arithmetic operator depends on the signedness of the operand type. */
  function IrBin(op: BinOp, signed: bool): IrOp {
    match op
    case Add => IAdd
    case Sub => ISub
    case Mul => IMul
    case Div => if signed then SDiv else UDiv
    case Mod => if signed then SRem else URem
    case BitAnd => IAnd
    case BitOr => IOr
    case BitXor => IXor
    case Shl => IShl
    case Shr => if signed then AShr else LShr
    case LogicalAnd => IAnd
    case _ => IOr
  }

  function IrPred(op: BinOp, signed: bool): Pred
    requires op.IsComparison()
  {
    match op
    case Eq => EQ
    case Ne => NE
    case Lt => if signed then SLT else ULT
    case Gt => if signed then SGT else UGT
    case Le => if signed then SLE else ULE
    case _ => if signed then SGE else UGE
  }

  function IrFPred(op: BinOp): FPred
    requires op.IsComparison()
  {
    match op
    case Eq => OEQ
    case Ne => ONE
    case Lt => OLT
    case Gt => OGT
    case Le => OLE
    case _ => OGE
  }

  function EmitNot(e: Em, v: Opnd): (r: (Em, Opnd))
    requires Ready(e)
    ensures Ready(r.0) && Grows(e, r.0)
  {
    Def(e, Bin(e.next, IXor, v, Lit(BoolCell(true))))
  }

  /** Both operands are already in registers or constants. */
  function EmitBinOp(e: Em, op: BinOp, ty: Ty, a: Opnd, b: Opnd): (r: (Em, Opnd))
    requires Ready(e) && BinOpOk(op, ty)
    ensures Ready(r.0) && Grows(e, r.0)
  {
    if ty.Float? then Def(e, Fcmp(e.next, IrFPred(op), a, b))
    else if ty.IsPointer() then Def(e, Icmp(e.next, if op.Eq? then EQ else NE, a, b))
    else if ty.Array? || ty.Slice? then
      var (e1, q) := EmitEq(e, ty, a, b);
      if op.Eq? then (e1, q)
      else
        var r := EmitNot(e1, q);
        GrowsTrans(e, e1, r.0);
        r
    else
      var signed := ty.Int? && ty.signed;
      if op.IsComparison() then Def(e, Icmp(e.next, IrPred(op, signed), a, b))
      else Def(e, Bin(e.next, IrBin(op, signed), a, b))
  }

  function EmitBinary(env: Env, e: Em, op: BinOp, l: Operand, r: Operand, ty: Ty): (q: (Em, Opnd))
    requires Ready(e) && OperandOk(env, l, ty) && OperandOk(env, r, ty) && BinOpOk(op, ty)
    ensures Ready(q.0) && Grows(e, q.0)
  {
    var (e1, a) := EmitOperand(env, e, l, ty);
    var (e2, b) := EmitOperand(env, e1, r, ty);
    var q := EmitBinOp(e2, op, ty, a, b);
    GrowsTrans(e, e1, e2); GrowsTrans(e, e2, q.0);
    q
  }

  function EmitUnOp(e: Em, op: UnOp, ty: Ty, v: Opnd): (r: (Em, Opnd))
    requires Ready(e) && UnOpOk(op, ty)
    ensures Ready(r.0) && Grows(e, r.0)
  {
    match op
    case Not => EmitNot(e, v)
    case Neg =>
      if ty.Float? then Def(e, Fneg(e.next, v)) else Def(e, Bin(e.next, ISub, Lit([Bits(ty.bits, 0)]), v))
    case BitNot => Def(e, Bin(e.next, IXor, v, Lit([Bits(ty.bits, Pow2(ty.bits) - 1)])))
  }

  /** A widening copies the sign of the source type; a narrowing drops high bits. */
  function ResizeKind(src: Ty, dst: Ty): Resize
    requires src.Int? && dst.Int?
  {
    if src.bits == dst.bits then BitCast
    else if src.bits < dst.bits then if src.signed then SExt else ZExt
    else Trunc
  }

  function EmitCast(e: Em, src: Ty, dst: Ty, v: Opnd): (r: (Em, Opnd))
    requires Ready(e) && CastOk(src, dst)
    ensures Ready(r.0) && Grows(e, r.0)
  {
    if src == dst || src.IsPointer() then (e, v)
    else if src.Bool? then if dst.bits > 1 then Def(e, Convert(e.next, ZExt, dst.bits, v)) else (e, v)
    else if dst.Bool? then Def(e, Icmp(e.next, NE, v, Lit([Bits(src.bits, 0)])))
    else Def(e, Convert(e.next, ResizeKind(src, dst), dst.bits, v))
  }

  // ----- aggregates -----

  /** Store the members of an aggregate one after the other into a scratch slot. */
  function EmitStores(env: Env, e: Em, slot: nat, off: nat, os: seq<Operand>, tys: seq<Ty>): (f: Em)
    requires Ready(e) && |os| == |tys| && forall i :: 0 <= i < |os| ==> OperandOk(env, os[i], tys[i])
    ensures Ready(f) && Grows(e, f) && f.cur == e.cur
    decreases |os|
  {
    if os == [] then e
    else
      var (e1, v) := EmitOperand(env, e, os[0], tys[0]);
      var (e2, p) := Def(e1, GepConst(e1.next, RootPtr(slot), off));
      var e3 := Push(e2, StoreCells(p, v, Size(tys[0])));
      var f := EmitStores(env, e3, slot, off + Size(tys[0]), os[1..], tys[1..]);
      GrowsTrans(e, e1, e2); GrowsTrans(e, e2, e3); GrowsTrans(e, e3, f);
      f
  }

  /** A new scratch slot in the entry block. */
  function AllocSlot(e: Em, size: nat): (f: Em)
    requires Ready(e)
    ensures Ready(f) && Grows(e, f) && f.cur == e.cur && f.next == e.next && f.blocks == e.blocks
  {
    e.(scratch := e.scratch + [size])
  }

  function EmitAggregate(env: Env, e: Em, os: seq<Operand>, ty: Ty): (r: (Em, Opnd))
    requires Ready(e) && |os| == |Kids(ty)| && forall i :: 0 <= i < |os| ==> OperandOk(env, os[i], Kids(ty)[i])
    ensures Ready(r.0) && Grows(e, r.0)
  {
    var slot := |env.roots| + |e.scratch|;
    var e1 := AllocSlot(e, Size(ty));
    var e2 := EmitStores(env, e1, slot, 0, os, Kids(ty));
    var r := Def(e2, LoadCells(e2.next, RootPtr(slot), Size(ty)));
    GrowsTrans(e, e1, e2); GrowsTrans(e, e2, r.0);
    r
  }

  // ----- rvalues and statements -----

  function EmitCastOf(env: Env, e: Em, o: Operand, src: Ty, dst: Ty): (r: (Em, Opnd))
    requires Ready(e) && OperandOk(env, o, src) && CastOk(src, dst)
    ensures Ready(r.0) && Grows(e, r.0)
  {
    var (e1, v) := EmitOperand(env, e, o, src);
    var r := EmitCast(e1, src, dst, v);
    GrowsTrans(e, e1, r.0);
    r
  }

  function EmitUnary(env: Env, e: Em, op: UnOp, o: Operand, ty: Ty): (r: (Em, Opnd))
    requires Ready(e) && UnOpOk(op, ty) && OperandOk(env, o, ty)
    ensures Ready(r.0) && Grows(e, r.0)
  {
    var (e1, v) := EmitOperand(env, e, o, ty);
    var r := EmitUnOp(e1, op, ty, v);
    GrowsTrans(e, e1, r.0);
    r
  }

  function EmitRead(env: Env, e: Em, o: Operand, src: Ty, ty: Ty): (r: (Em, Opnd))
    requires Ready(e) && OperandOk(env, o, src)
    ensures Ready(r.0) && Grows(e, r.0)
  {
    var (e1, p) := EmitOperand(env, e, o, src);
    var r := Def(e1, LoadCells(e1.next, p, Size(ty)));
    GrowsTrans(e, e1, r.0);
    r
  }

  function EmitRvalue(env: Env, e: Em, rv: Rvalue, ty: Ty): (r: (Em, Opnd))
    requires Ready(e) && RvalueOk(env, rv, ty)
    ensures Ready(r.0) && Grows(e, r.0)
  {
    match rv
    case Use(o) =>
      if OperandOk(env, o, ty) then EmitOperand(env, e, o, ty)
      else EmitCastOf(env, e, o, OperandTy(env, o).value, ty)
    case Binary(op, l, r) => EmitBinary(env, e, op, l, r, BinTy(env, l, r).value)
    case Unary(op, o) => EmitUnary(env, e, op, o, ty)
    case Ref(p) => EmitPlace(env, e, p)
    case Read(o) => EmitRead(env, e, o, OperandTy(env, o).value, ty)
    case Cast(o, target) =>
      if CastOk(OperandTy(env, o).value, target) then EmitCastOf(env, e, o, OperandTy(env, o).value, target)
      else EmitPlace(env, e, o.place)
    case Aggregate(os) => EmitAggregate(env, e, os, ty)
  }

  function EmitAssign(env: Env, e: Em, p: Place, rv: Rvalue, ty: Ty): (f: Em)
    requires Ready(e) && PlaceTy(env, p) == Some(ty) && RvalueOk(env, rv, ty)
    ensures Ready(f) && Grows(e, f)
  {
    var (e1, v) := EmitRvalue(env, e, rv, ty);
    var (e2, a) := EmitPlace(env, e1, p);
    var f := Push(e2, StoreCells(a, v, Size(ty)));
    GrowsTrans(e, e1, e2); GrowsTrans(e, e2, f);
    f
  }

  function EmitStmt(env: Env, e: Em, s: Stmt): (f: Em)
    requires Ready(e) && StmtOk(env, s)
    ensures Ready(f) && Grows(e, f)
  {
    match s
    case Nop => e
    case Discard(o) =>
      if o.Copy? && !PlaceTy(env, o.place).value.Void? then EmitOperand(env, e, o, PlaceTy(env, o.place).value).0 else e
    case Assign(p, rv) =>
      var ty := PlaceTy(env, p).value;
      if ty.Void? then e else EmitAssign(env, e, p, rv, ty)
  }

  function EmitStmts(env: Env, e: Em, ss: seq<Stmt>): (f: Em)
    requires Ready(e) && forall k :: 0 <= k < |ss| ==> StmtOk(env, ss[k])
    ensures Ready(f) && Grows(e, f)
    decreases |ss|
  {
    if ss == [] then e
    else
      var e1 := EmitStmt(env, e, ss[0]);
      var f := EmitStmts(env, e1, ss[1..]);
      GrowsTrans(e, e1, f);
      f
  }

  // ----- terminators -----

  /** The pattern of a case label at the width of the discriminant: first cut to 64 bits, then to the
      width. */
  function CasePatterns(w: Width, cases: seq<(nat, nat)>): (r: seq<(nat, nat)>)
    ensures |r| == |cases| && forall k :: 0 <= k < |r| ==> r[k] == ((cases[k].0 % Pow2(64)) % Pow2(w), cases[k].1)
  {
    seq(|cases|, k requires 0 <= k < |cases| => ((cases[k].0 % Pow2(64)) % Pow2(w), cases[k].1))
  }

  function SwitchWidth(ty: Ty): Width
    requires ty.Int? || ty.Bool?
  {
    if ty.Int? then ty.bits else 1
  }

  /** The terminator and the code that computes its operand. */
  function EmitTerm(f: Func, e: Em, t: Terminator): (r: (Em, Term))
    requires Ready(e) && TermOk(f, t)
    ensures Ready(r.0) && Grows(e, r.0) && !r.1.Open?
  {
    match t
    case Goto(b) => (e, Br(b))
    case SwitchInt(d, cases, otherwise) =>
      var (e1, v) := EmitLoad(f.env, e, d);
      (e1, Switch(v, otherwise, CasePatterns(SwitchWidth(PlaceTy(f.env, d).value), cases)))
    case Return(o) =>
      var (e1, v) := EmitOperand(f.env, e, o, f.retTy);
      (e1, Ret(v))
    case ReturnVoid => (e, RetVoid)
    case Unreachable => (e, Trap)
  }

  /** One block, from the end of what it already holds. */
  function EmitBlock(f: Func, e: Em, b: Block): (r: Em)
    requires Ready(e) && (forall k :: 0 <= k < |b.stmts| ==> StmtOk(f.env, b.stmts[k])) && TermOk(f, b.term)
    ensures Grows(e, r) && r.cur < |r.blocks| && !r.blocks[r.cur].term.Open?
  {
    var e1 := EmitStmts(f.env, e, b.stmts);
    var (e2, t) := EmitTerm(f, e1, b.term);
    GrowsTrans(e, e1, e2);
    GrowsTrans(e, e2, SetTerm(e2, t));
    SetTerm(e2, t)
  }

  // ----- functions -----

  /** Blocks from `k` on are still to be filled. */
  predicate Pending(f: Func, e: Em, k: nat) {
    && |f.blocks| <= |e.blocks|
    && forall b :: k <= b < |f.blocks| ==>
         e.blocks[b].phis == [] && e.blocks[b].term.Open? && e.blocks[b].instrs == Prologue(f, b)
  }

  /** What a block holds before its statements: the entry block stores the arguments. */
  function Prologue(f: Func, b: nat): seq<Instr> {
    if b == 0 then ParamStores(f, 0) else []
  }

  function ParamStores(f: Func, k: nat): seq<Instr>
    decreases |f.params| - k
  {
    if k >= |f.params| then []
    else
      var root := f.params[k];
      var size := if root < |f.env.roots| then Size(f.env.roots[root]) else 0;
      [StoreCells(RootPtr(root), Reg(k), size)] + ParamStores(f, k + 1)
  }

  function EmitBlocks(f: Func, e: Em, k: nat): (r: Em)
    requires FuncOk(f) && k <= |f.blocks| && Pending(f, e, k)
    decreases |f.blocks| - k
  {
    if k == |f.blocks| then e
    else
      var e1 := EmitBlock(f, e.(cur := k), f.blocks[k]);
      EmitBlocks(f, e1, k + 1)
  }

  /** All blocks of the function exist before any is filled, at the same indices as in the source. */
  function Start(f: Func): (e: Em)
    ensures Pending(f, e, 0)
  {
    Em(seq(|f.blocks|, b requires 0 <= b < |f.blocks| => TBlock([], Prologue(f, b), Open)), 0, |f.params|, [])
  }

  function EmitFunction(f: Func): Code
    requires FuncOk(f)
  {
    CodeOf(EmitBlocks(f, Start(f), 0))
  }

  lemma BlockOkOf(f: Func, k: nat)
    requires FuncOk(f) && k < |f.blocks|
    ensures (forall j :: 0 <= j < |f.blocks[k].stmts| ==> StmtOk(f.env, f.blocks[k].stmts[j])) &&
              TermOk(f, f.blocks[k].term)
  {
  }

  lemma PendingBlock(f: Func, e: Em, k: nat)
    requires Pending(f, e, k) && k < |f.blocks|
    ensures Ready(e.(cur := k)) && e.blocks[k] == TBlock([], Prologue(f, k), Open)
  {
  }

  lemma PendingNext(f: Func, e0: Em, e1: Em, k: nat)
    requires k < |f.blocks| && e0.cur == k && Pending(f, e0, k) && Grows(e0, e1)
    ensures Pending(f, e1, k + 1)
  {
    hide Prologue;
  }

  lemma PendingMoved(f: Func, e: Em, k: nat)
    requires Pending(f, e, k)
    ensures Pending(f, e.(cur := k), k)
  {
  }

  lemma StartPending(f: Func)
    ensures Pending(f, Start(f), 0)
  {
  }

  lemma EmitStoresCons(env: Env, e: Em, slot: nat, off: nat, os: seq<Operand>, tys: seq<Ty>)
    requires Ready(e) && |os| == |tys| && os != [] && forall i :: 0 <= i < |os| ==> OperandOk(env, os[i], tys[i])
    ensures forall i :: 0 <= i < |os[1..]| ==> OperandOk(env, os[1..][i], tys[1..][i])
    ensures var (e1, v) := EmitOperand(env, e, os[0], tys[0]);
            var (e2, p) := Def(e1, GepConst(e1.next, RootPtr(slot), off));
            var e3 := Push(e2, StoreCells(p, v, Size(tys[0])));
            EmitStores(env, e, slot, off, os, tys) == EmitStores(env, e3, slot, off + Size(tys[0]), os[1..], tys[1..])
  {
    hide Def, Push, EmitOperand, OperandOk, Grows;
  }

  lemma AggregateParts(env: Env, e: Em, os: seq<Operand>, ty: Ty)
    requires Ready(e) && |os| == |Kids(ty)| && forall i :: 0 <= i < |os| ==> OperandOk(env, os[i], Kids(ty)[i])
    ensures var slot := |env.roots| + |e.scratch|;
            var e2 := EmitStores(env, AllocSlot(e, Size(ty)), slot, 0, os, Kids(ty));
            EmitAggregate(env, e, os, ty) == Def(e2, LoadCells(e2.next, RootPtr(slot), Size(ty)))
  {
    hide Def, EmitStores, AllocSlot, OperandOk, Grows;
  }

  lemma EmitStoresNil(env: Env, e: Em, slot: nat, off: nat)
    requires Ready(e)
    ensures EmitStores(env, e, slot, off, [], []) == e
  {
  }
}
