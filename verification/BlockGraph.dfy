/**
 The small target language that stands for the emitted code: a graph of basic blocks over registers
 and memory cells, with phi nodes, integer arithmetic on bit patterns, compares, selects, address
 arithmetic, loads and stores.
 */
module BlockGraph {
  import opened Wrappers
  import opened Arith
  import opened Mir
  import opened Floats

  /** A cell holds a bit pattern of some width, an address, or nothing that was ever stored. */
  datatype Cell = Bits(w: nat, n: int) | CPtr(a: Addr) | CUndef

  type Cells = seq<Cell>
  type TMem = seq<Cells>
  type Regs = map<nat, Cells>

  datatype Opnd = Reg(r: nat) | Lit(v: Cells)

  datatype IrOp = IAdd | ISub | IMul | SDiv | UDiv | SRem | URem | IAnd | IOr | IXor | IShl | AShr | LShr

  datatype Pred = EQ | NE | SLT | ULT | SGT | UGT | SLE | ULE | SGE | UGE

  datatype FPred = OEQ | ONE | OLT | OGT | OLE | OGE

  datatype Resize = SExt | ZExt | Trunc | BitCast

  datatype Instr =
    | GepConst(dst: nat, p: Opnd, off: nat)
    | GepScaled(dst: nat, p: Opnd, index: Opnd, scale: nat)
    | LoadCells(dst: nat, p: Opnd, n: nat)
    | StoreCells(p: Opnd, v: Opnd, n: nat)
    | Extract(dst: nat, v: Opnd, lo: nat, n: nat)
    | Bin(dst: nat, op: IrOp, a: Opnd, b: Opnd)
    | Icmp(dst: nat, pred: Pred, a: Opnd, b: Opnd)
    | Fcmp(dst: nat, fpred: FPred, a: Opnd, b: Opnd)
    | Fneg(dst: nat, a: Opnd)
    | Select(dst: nat, c: Opnd, a: Opnd, b: Opnd)
    | Convert(dst: nat, kind: Resize, w: Width, a: Opnd)

  datatype Term =
    | Open
    | Br(target: nat)
    | CondBr(c: Opnd, yes: nat, no: nat)
    | Switch(v: Opnd, otherwise: nat, cases: seq<(nat, nat)>)
    | Ret(v: Opnd)
    | RetVoid
    | Trap

  datatype Phi = Phi(dst: nat, incoming: seq<(nat, Opnd)>)

  datatype TBlock = TBlock(phis: seq<Phi>, instrs: seq<Instr>, term: Term)

  type Graph = seq<TBlock>

  datatype TState = Running(block: nat, pc: nat, regs: Regs, mem: TMem) | Halted(ret: Cells, mem: TMem)

  function Eval(regs: Regs, o: Opnd): Option<Cells> {
    match o
    case Lit(v) => Some(v)
    case Reg(r) => if r in regs then Some(regs[r]) else None
  }

  /** The single defined cell of an operand. */
  function Eval1(regs: Regs, o: Opnd): Option<Cell> {
    var v :- Eval(regs, o);
    if |v| == 1 && v[0] != CUndef then Some(v[0]) else None
  }

  function EvalAddr(regs: Regs, o: Opnd): Option<Addr> {
    var c :- Eval1(regs, o);
    if c.CPtr? then Some(c.a) else None
  }

  function EvalBits(regs: Regs, o: Opnd): (c: Option<Cell>)
    ensures c.Some? ==> c.value.Bits? && 1 <= c.value.w && 0 <= c.value.n < Pow2(c.value.w)
  {
    var c :- Eval1(regs, o);
    if c.Bits? && 1 <= c.w && 0 <= c.n < Pow2(c.w) then Some(c) else None
  }

  /** The signed reading of a bit pattern. */
  function Signed(w: nat, n: nat): int
    requires w >= 1
  {
    Wrap(n, w, true)
  }

  function EvalIr(op: IrOp, w: nat, x: nat, y: nat): Option<int>
    requires w >= 1
  {
    match op
    case IAdd => Some((x + y) % Pow2(w))
    case ISub => Some((x - y) % Pow2(w))
    case IMul => Some((x * y) % Pow2(w))
    case UDiv => if y == 0 then None else Some(x / y)
    case URem => if y == 0 then None else Some(x % y)
    case SDiv =>
      if Signed(w, y) == 0 || !InRange(TruncDiv(Signed(w, x), Signed(w, y)), w, true) then None
      else Some(TruncDiv(Signed(w, x), Signed(w, y)) % Pow2(w))
    case SRem =>
      if Signed(w, y) == 0 || !InRange(TruncDiv(Signed(w, x), Signed(w, y)), w, true) then None
      else Some(TruncRem(Signed(w, x), Signed(w, y)) % Pow2(w))
    case IAnd => Some(BitOp(BitAnd, w, x, y))
    case IOr => Some(BitOp(BitOr, w, x, y))
    case IXor => Some(BitOp(BitXor, w, x, y))
    case IShl => if y < w then Some((x * Pow2(y)) % Pow2(w)) else None
    case LShr => if y < w then Some(x / Pow2(y)) else None
    case AShr => if y < w then Some((Signed(w, x) / Pow2(y)) % Pow2(w)) else None
  }

  predicate EvalPred(p: Pred, w: nat, x: nat, y: nat)
    requires w >= 1
  {
    match p
    case EQ => x == y
    case NE => x != y
    case SLT => Signed(w, x) < Signed(w, y)
    case ULT => x < y
    case SGT => Signed(w, x) > Signed(w, y)
    case UGT => x > y
    case SLE => Signed(w, x) <= Signed(w, y)
    case ULE => x <= y
    case SGE => Signed(w, x) >= Signed(w, y)
    case UGE => x >= y
  }

  /** The formats that the width of a pattern tells apart. */
  predicate IsFloatWidth(w: nat) {
    w == FloatBits(false) || w == FloatBits(true)
  }

  /** The ordered predicates. */
  predicate EvalFPred(p: FPred, double: bool, x: nat, y: nat)
    requires IsFloat(double, x) && IsFloat(double, y)
  {
    && !IsNaN(double, x) && !IsNaN(double, y)
    && match p
       case OEQ => Key(double, x) == Key(double, y)
       case ONE => Key(double, x) != Key(double, y)
       case OLT => Key(double, x) < Key(double, y)
       case OGT => Key(double, x) > Key(double, y)
       case OLE => Key(double, x) <= Key(double, y)
       case OGE => Key(double, x) >= Key(double, y)
  }

  function EvalResize(k: Resize, from: nat, to: nat, n: nat): int
    requires from >= 1
  {
    match k
    case SExt => Signed(from, n) % Pow2(to)
    case _ => n % Pow2(to)
  }

  function BoolCell(b: bool): Cells {
    [Bits(1, if b then 1 else 0)]
  }

  function LoadT(mem: TMem, a: Addr, n: nat): Option<Cells> {
    if a.At? && a.root < |mem| && 0 <= a.off && a.off + n <= |mem[a.root]|
    then Some(mem[a.root][a.off..a.off + n])
    else None
  }

  /** What an instruction other than a store computes. */
  function Result(i: Instr, regs: Regs, mem: TMem): Option<Cells>
    requires !i.StoreCells?
  {
    match i
    case GepConst(_, p, off) =>
      var a :- EvalAddr(regs, p);
      if a.At? then Some([CPtr(At(a.root, a.off + off))]) else None
    case GepScaled(_, p, index, scale) =>
      var a :- EvalAddr(regs, p);
      var k :- EvalBits(regs, index);
      if a.At? then Some([CPtr(At(a.root, a.off + k.n * scale))]) else None
    case LoadCells(_, p, n) =>
      var a :- EvalAddr(regs, p);
      LoadT(mem, a, n)
    case Extract(_, v, lo, n) =>
      var x :- Eval(regs, v);
      if lo + n <= |x| then Some(x[lo..lo + n]) else None
    case Bin(_, op, a, b) =>
      var x :- EvalBits(regs, a);
      var y :- EvalBits(regs, b);
      if x.w != y.w then None
      else
        var r :- EvalIr(op, x.w, x.n, y.n);
        Some([Bits(x.w, r)])
    case Icmp(_, p, a, b) =>
      var x :- Eval1(regs, a);
      var y :- Eval1(regs, b);
      if x.CPtr? && y.CPtr? && (p.EQ? || p.NE?) then Some(BoolCell((x.a == y.a) == p.EQ?))
      else
        var m :- EvalBits(regs, a);
        var n :- EvalBits(regs, b);
        if m.w == n.w then Some(BoolCell(EvalPred(p, m.w, m.n, n.n))) else None
    case Fcmp(_, p, a, b) =>
      var m :- EvalBits(regs, a);
      var n :- EvalBits(regs, b);
      if m.w == n.w && IsFloatWidth(m.w) then Some(BoolCell(EvalFPred(p, m.w == FloatBits(true), m.n, n.n))) else None
    case Fneg(_, a) =>
      var x :- EvalBits(regs, a);
      if IsFloatWidth(x.w) then Some([Bits(x.w, FloatNeg(x.w == FloatBits(true), x.n))]) else None
    case Select(_, c, a, b) =>
      var k :- EvalBits(regs, c);
      if k.n == 1 then Eval(regs, a) else Eval(regs, b)
    case Convert(_, kind, w, a) =>
      var x :- EvalBits(regs, a);
      Some([Bits(w, EvalResize(kind, x.w, w, x.n))])
  }

  function PhiValues(phis: seq<Phi>, from: nat, regs: Regs): Option<Regs> {
    if phis == [] then Some(map[])
    else
      var o :- Incoming(phis[0].incoming, from);
      var v :- Eval(regs, o);
      var rest :- PhiValues(phis[1..], from, regs);
      Some(rest[phis[0].dst := v])
  }

  function Incoming(inc: seq<(nat, Opnd)>, from: nat): Option<Opnd> {
    if inc == [] then None
    else if inc[0].0 == from then Some(inc[0].1)
    else Incoming(inc[1..], from)
  }

  /** Jump from block `from`: all phi nodes of the target read the old registers. */
  function Enter(g: Graph, from: nat, target: nat, regs: Regs, mem: TMem): Option<TState> {
    if target < |g| then
      var vals :- PhiValues(g[target].phis, from, regs);
      Some(Running(target, 0, regs + vals, mem))
    else None
  }

  function FindCase(cases: seq<(nat, nat)>, n: nat, otherwise: nat): nat {
    if cases == [] then otherwise
    else if cases[0].0 == n then cases[0].1
    else FindCase(cases[1..], n, otherwise)
  }

  function StepTerm(g: Graph, s: TState, t: Term): Option<TState>
    requires s.Running?
  {
    match t
    case Open => None
    case Trap => None
    case Br(b) => Enter(g, s.block, b, s.regs, s.mem)
    case CondBr(c, yes, no) =>
      var k :- EvalBits(s.regs, c);
      Enter(g, s.block, if k.n == 1 then yes else no, s.regs, s.mem)
    case Switch(v, otherwise, cases) =>
      var k :- EvalBits(s.regs, v);
      Enter(g, s.block, FindCase(cases, k.n, otherwise), s.regs, s.mem)
    case Ret(v) =>
      var x :- Eval(s.regs, v);
      Some(Halted(x, s.mem))
    case RetVoid => Some(Halted([], s.mem))
  }

  function StepInstr(s: TState, i: Instr): Option<TState>
    requires s.Running?
  {
    if i.StoreCells? then
      var a :- EvalAddr(s.regs, i.p);
      var v :- Eval(s.regs, i.v);
      if |v| == i.n && LoadT(s.mem, a, i.n).Some? then
        Some(s.(pc := s.pc + 1, mem := s.mem[a.root := Splice(s.mem[a.root], a.off, v)]))
      else None
    else
      var v :- Result(i, s.regs, s.mem);
      Some(s.(pc := s.pc + 1, regs := s.regs[i.dst := v]))
  }

  function StepT(g: Graph, s: TState): Option<TState> {
    if s.Halted? || s.block >= |g| then None
    else
      var b := g[s.block];
      if s.pc < |b.instrs| then StepInstr(s, b.instrs[s.pc])
      else if s.pc == |b.instrs| then StepTerm(g, s, b.term)
      else None
  }

  function Run(g: Graph, s: TState, n: nat): Option<TState>
    decreases n
  {
    if n == 0 then Some(s)
    else
      var t :- StepT(g, s);
      Run(g, t, n - 1)
  }

  /** `t` is reached from `s` in at least `k` steps. */
  ghost predicate Reaches(g: Graph, s: TState, t: TState, k: nat) {
    exists n: nat :: n >= k && Run(g, s, n) == Some(t)
  }

  lemma {:induction false} RunAdd(g: Graph, s: TState, t: TState, m: nat, n: nat)
    requires Run(g, s, m) == Some(t)
    ensures Run(g, s, m + n) == Run(g, t, n)
    decreases m
  {
    hide StepT;
    if m > 0 {
      RunAdd(g, StepT(g, s).value, t, m - 1, n);
    }
  }

  lemma ReachesRefl(g: Graph, s: TState)
    ensures Reaches(g, s, s, 0)
  {
    assert Run(g, s, 0) == Some(s);
  }

  lemma ReachesTrans(g: Graph, s: TState, t: TState, u: TState, j: nat, k: nat)
    requires Reaches(g, s, t, j) && Reaches(g, t, u, k)
    ensures Reaches(g, s, u, j + k)
  {
    var m: nat :| m >= j && Run(g, s, m) == Some(t);
    var n: nat :| n >= k && Run(g, t, n) == Some(u);
    RunAdd(g, s, t, m, n);
  }

  lemma ReachesStep(g: Graph, s: TState, t: TState, u: TState, k: nat)
    requires Reaches(g, s, t, k) && StepT(g, t) == Some(u)
    ensures Reaches(g, s, u, k + 1) && Reaches(g, s, u, k)
  {
    assert Run(g, u, 0) == Some(u);
    assert Run(g, t, 1) == Some(u);
    ReachesTrans(g, s, t, u, k, 1);
  }

  /** The machine is deterministic: two runs that both halt, halt in the same state. */
  lemma HaltsOnce(g: Graph, s: TState, t: TState, u: TState)
    requires Reaches(g, s, t, 0) && t.Halted? && Reaches(g, s, u, 0) && u.Halted?
    ensures t == u
  {
    var m: nat :| Run(g, s, m) == Some(t);
    var n: nat :| Run(g, s, n) == Some(u);
    if m <= n {
      RunAdd(g, s, t, m, n - m);
    } else {
      RunAdd(g, s, u, n, m - n);
    }
  }
}
