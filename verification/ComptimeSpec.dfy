/**
 What the comptime validator reports: a table of the visits that each visit makes, the errors that a visit
 reports itself, and the list of all errors in the order in which they are found.
 */
module ComptimeSpec {
  import opened ComptimeAst
  import opened Wrappers

  datatype Message = OnlyAsReturnType | UseInstead(name: string) | NotAllowed

  /** An error names its source and the node that it points at. */
  datatype Error =
    | Unsupported(src: Option<Source>, at: Expr)
    | RuntimeType(src: Option<Source>, ty: TypeExpr, message: Message)

  const COMPTIME_TYPES: set<string> := {
    "comptime_int", "comptime_float", "comptime_bool", "comptime_char",
    "comptime_str", "zeen_type", "zeen_expr", "zeen_decl"
  }

  datatype Node = D(decl: Decl) | S(stmt: Stmt) | E(expr: Expr) | T(ty: TypeExpr)

  /** The mode of a type says whether `void` is allowed, that of any other node whether it is comptime. */
  datatype Visit = Visit(node: Node, mode: bool, src: Option<Source>)

  function NodeSize(n: Node): nat {
    match n
    case D(d) => DeclSize(d)
    case S(s) => StmtSize(s)
    case E(e) => ExprSize(e)
    case T(t) => TypeSize(t)
  }

  predicate Smaller(vs: seq<Visit>, n: nat) {
    forall v :: v in vs ==> NodeSize(v.node) < n
  }

  /** Visits of one mode and one source, none of them to a type. */
  predicate Uniform(vs: seq<Visit>, mode: bool, src: Option<Source>) {
    forall v :: v in vs ==> v.mode == mode && v.src == src && !v.node.T?
  }

  function VisitDecls(ds: seq<Decl>, mode: bool, src: Option<Source>): (r: seq<Visit>)
    ensures Smaller(r, DeclsSize(ds) + 1)
    ensures Uniform(r, mode, src)
  {
    seq(|ds|, i requires 0 <= i < |ds| => Visit(D(ds[i]), mode, src))
  }

  function VisitStmts(ss: seq<Stmt>, mode: bool, src: Option<Source>): (r: seq<Visit>)
    ensures Smaller(r, StmtsSize(ss) + 1)
    ensures Uniform(r, mode, src)
  {
    seq(|ss|, i requires 0 <= i < |ss| => Visit(S(ss[i]), mode, src))
  }

  function VisitExprs(es: seq<Expr>, mode: bool, src: Option<Source>): (r: seq<Visit>)
    ensures Smaller(r, ExprsSize(es) + 1)
    ensures Uniform(r, mode, src)
  {
    seq(|es|, i requires 0 <= i < |es| => Visit(E(es[i]), mode, src))
  }

  function VisitTypes(ts: seq<TypeExpr>, mode: bool, src: Option<Source>): (r: seq<Visit>)
    ensures Smaller(r, TypesSize(ts) + 1)
  {
    seq(|ts|, i requires 0 <= i < |ts| => Visit(T(ts[i]), mode, src))
  }

  function VisitArms(arms: seq<Arm>, mode: bool, src: Option<Source>): (r: seq<Visit>)
    ensures Smaller(r, ArmsSize(arms) + 1)
    ensures Uniform(r, mode, src)
  {
    if arms == [] then []
    else VisitExprs(arms[0].guard, mode, src) + [Visit(E(arms[0].body), mode, src)] + VisitArms(arms[1..], mode, src)
  }

  function One(e: Expr, mode: bool, src: Option<Source>): (r: seq<Visit>)
    ensures Smaller(r, 1 + ExprSize(e))
    ensures Uniform(r, mode, src)
  {
    [Visit(E(e), mode, src)]
  }

  function Two(a: Expr, b: Expr, mode: bool, src: Option<Source>): (r: seq<Visit>)
    ensures Smaller(r, 1 + ExprSize(a) + ExprSize(b))
    ensures Uniform(r, mode, src)
  {
    [Visit(E(a), mode, src), Visit(E(b), mode, src)]
  }

  function OneAnd(e: Expr, es: seq<Expr>, mode: bool, src: Option<Source>): (r: seq<Visit>)
    ensures Smaller(r, 1 + ExprSize(e) + ExprsSize(es))
    ensures Uniform(r, mode, src)
  {
    [Visit(E(e), mode, src)] + VisitExprs(es, mode, src)
  }

  function Branches(c: Expr, t: Stmt, f: Opt<Stmt>, mode: bool, src: Option<Source>): (r: seq<Visit>)
    ensures Smaller(r, 1 + ExprSize(c) + StmtSize(t) + StmtsSize(f))
    ensures Uniform(r, mode, src)
  {
    [Visit(E(c), mode, src), Visit(S(t), mode, src)] + VisitStmts(f, mode, src)
  }

  function InBlock(ss: seq<Stmt>, t: Opt<Expr>, mode: bool, src: Option<Source>): (r: seq<Visit>)
    ensures Smaller(r, 1 + StmtsSize(ss) + ExprsSize(t))
    ensures Uniform(r, mode, src)
  {
    VisitStmts(ss, mode, src) + VisitExprs(t, mode, src)
  }

  function InSwitch(o: Expr, arms: seq<Arm>, mode: bool, src: Option<Source>): (r: seq<Visit>)
    ensures Smaller(r, 1 + ExprSize(o) + ArmsSize(arms))
    ensures Uniform(r, mode, src)
  {
    [Visit(E(o), mode, src)] + VisitArms(arms, mode, src)
  }

  function Ends(a: Opt<Expr>, b: Opt<Expr>, mode: bool, src: Option<Source>): (r: seq<Visit>)
    ensures Smaller(r, 1 + ExprsSize(a) + ExprsSize(b))
    ensures Uniform(r, mode, src)
  {
    VisitExprs(a, mode, src) + VisitExprs(b, mode, src)
  }

  function OneDecl(d: Decl, mode: bool, src: Option<Source>): (r: seq<Visit>)
    ensures Smaller(r, 1 + DeclSize(d))
    ensures Uniform(r, mode, src)
  {
    [Visit(D(d), mode, src)]
  }

  function OneStmt(s: Stmt, mode: bool, src: Option<Source>): (r: seq<Visit>)
    ensures Smaller(r, 1 + StmtSize(s))
    ensures Uniform(r, mode, src)
  {
    [Visit(S(s), mode, src)]
  }

  function Nothing(n: nat): (r: seq<Visit>)
    ensures Smaller(r, n)
  {
    []
  }

  predicate IsSelfReceiver(t: TypeExpr) {
    match t
    case SelfType => true
    case SelfAlias => true
    case Const(i) => IsSelfReceiver(i)
    case SinglePointer(i) => IsSelfReceiver(i)
    case ManyPointer(i) => IsSelfReceiver(i)
    case _ => false
  }

  function NotSelf(ts: seq<TypeExpr>): (r: seq<TypeExpr>)
    ensures TypesSize(r) <= TypesSize(ts)
  {
    if ts == [] then []
    else if IsSelfReceiver(ts[0]) then NotSelf(ts[1..])
    else
      var r := [ts[0]] + NotSelf(ts[1..]);
      assert r[1..] == NotSelf(ts[1..]);
      r
  }

  /** A comptime signature and body; the result type alone may be `void`. */
  function VisitFn(params: seq<TypeExpr>, ret: Opt<TypeExpr>, body: Opt<Stmt>, src: Option<Source>): (r: seq<Visit>)
    ensures Smaller(r, TypesSize(params) + TypesSize(ret) + StmtsSize(body) + 1)
  {
    VisitTypes(params, false, src) + VisitTypes(ret, true, src) + VisitStmts(body, true, src)
  }

  /** The methods of a comptime struct; what is not a function is passed over, and receivers are not checked. */
  function VisitMethods(ms: seq<Decl>, src: Option<Source>): (r: seq<Visit>)
    ensures Smaller(r, DeclsSize(ms) + 1)
  {
    if ms == [] then []
    else VisitMethod(ms[0], src) + VisitMethods(ms[1..], src)
  }

  function VisitMethod(m: Decl, src: Option<Source>): (r: seq<Visit>)
    ensures Smaller(r, DeclSize(m) + 1)
  {
    if m.kind.FnDecl? then VisitFn(NotSelf(m.kind.params), m.kind.ret, m.kind.body, src) else []
  }

  function InStruct(fields: seq<TypeExpr>, ms: seq<Decl>, src: Option<Source>): (r: seq<Visit>)
    ensures Smaller(r, 1 + TypesSize(fields) + DeclsSize(ms))
  {
    VisitTypes(fields, false, src) + VisitMethods(ms, src)
  }

  function DeclKids(d: Decl, mode: bool): (r: seq<Visit>)
    ensures Smaller(r, DeclSize(d))
  {
    hide Uniform, VisitTypes, VisitExprs, VisitStmts, VisitDecls, VisitMethods, VisitFn, InStruct, One,
         TypesSize, ExprsSize, StmtsSize, DeclsSize;
    var src := Some(d.src);
    match d.kind
    case ComptimeFn(ps, ret, body) => VisitFn(ps, ret, body, src)
    case ComptimeConst(v) => One(v, true, src)
    case ComptimeBlock(ss) => VisitStmts(ss, true, src)
    case ComptimeStruct(_, fs, ms) => InStruct(fs, ms, src)
    case FnDecl(_, _, _, body) => VisitStmts(body, mode, src)
    case StructDecl(_, ms) => VisitDecls(ms, mode, src)
    case EnumDecl(_, ms) => VisitDecls(ms, mode, src)
    case InterfaceDecl(_, ms) => VisitDecls(ms, mode, src)
    case ImplementDecl(_, _, ms) => VisitDecls(ms, mode, src)
    case GlobalVar(_, v) => One(v, mode, src)
    case _ => []
  }

  function StmtKids(s: Stmt, mode: bool, src: Option<Source>): (r: seq<Visit>)
    ensures Smaller(r, StmtSize(s))
  {
    hide Uniform, VisitTypes, VisitExprs, VisitStmts, VisitDecls, VisitArms, TypesSize, ExprsSize, StmtsSize, DeclsSize,
         ArmsSize, One, Two, OneAnd, Branches, InBlock, InSwitch;
    match s
    case Let(t, v) => (if mode then VisitTypes(t, false, src) else []) + VisitExprs(v, mode, src)
    case Assign(o, v) => Two(o, v, mode, src)
    case CompoundAssign(o, v) => Two(o, v, mode, src)
    case Return(v) => VisitExprs(v, mode, src)
    case While(c, u, b, f) =>
      [Visit(E(c), mode, src)] + VisitStmts(u, mode, src) + [Visit(S(b), mode, src)] + VisitStmts(f, mode, src)
    case For(c, b, f) => Branches(c, b, f, mode, src)
    case ExprStmt(e) => One(e, mode, src)
    case TrailingExpr(e) => One(e, mode, src)
    case NestedFn(d) => OneDecl(d, false, src)
    case ConditionalStmts(ss, f) => VisitStmts(ss, mode, src) + VisitStmts(f, mode, src)
    case Break => []
    case Continue => []
  }

  function ExprKids(e: Expr, mode: bool, src: Option<Source>): (r: seq<Visit>)
    ensures Smaller(r, ExprSize(e))
  {
    hide BodyKids, Smaller, OneDecl, OneStmt, Ends, Nothing, Uniform, VisitTypes, VisitExprs, VisitStmts, VisitDecls,
         VisitArms, TypesSize, ExprsSize, StmtsSize, DeclsSize, ArmsSize, One, Two, OneAnd, Branches, InBlock, InSwitch;
    match e
    case Binary(l, r) => Two(l, r, mode, src)
    case Unary(x) => One(x, mode, src)
    case Call(c, args) => OneAnd(c, args, mode, src)
    case MacroCall(args) => VisitExprs(args, mode, src)
    case FieldAccess(o, f) => Two(o, f, mode, src)
    case SliceAccess(o, i) => Two(o, i, mode, src)
    case StructInit(s, vs) => OneAnd(s, vs, mode, src)
    case AnonymousStructInit(vs) => VisitExprs(vs, mode, src)
    case ArrayInit(vs) => VisitExprs(vs, mode, src)
    case ArrayRepeatInit(v, c) => Two(v, c, mode, src)
    case SpliceExpr(x) => One(x, mode, src)
    case _ => BodyKids(e, mode, src)
  }

  /** The expressions that hold statements, declarations, alternatives or bounds, and `?`. */
  function BodyKids(e: Expr, mode: bool, src: Option<Source>): (r: seq<Visit>)
    ensures Smaller(r, ExprSize(e))
  {
    hide Smaller, OneDecl, OneStmt, Ends, Nothing, Uniform, VisitTypes, VisitExprs, VisitStmts, VisitDecls, VisitArms,
         TypesSize, ExprsSize, StmtsSize, DeclsSize, ArmsSize, One, Two, OneAnd, Branches, InBlock, InSwitch;
    match e
    case DeclExpr(d) => OneDecl(d, true, src)
    case If(c, t, f) => Branches(c, t, f, mode, src)
    case Switch(o, arms) => InSwitch(o, arms, mode, src)
    case Block(ss, t) => InBlock(ss, t, mode, src)
    case Closure(_, _, b) => OneStmt(b, false, src)
    case ConditionalExpr(x, f) => OneAnd(x, f, mode, src)
    case Range(s, f) => Ends(s, f, mode, src)
    case Try(x) => if mode then Nothing(ExprSize(e)) else One(x, mode, src)
    case ComptimeExpr(ss, t) => InBlock(ss, t, true, src)
    case _ => Nothing(ExprSize(e))
  }

  function TypeKids(t: TypeExpr, src: Option<Source>): (r: seq<Visit>)
    ensures Smaller(r, TypeSize(t))
  {
    match t
    case Const(i) => [Visit(T(i), false, src)]
    case Splice(e) => [Visit(E(e), true, src)]
    case ComptimeCall(e) => [Visit(E(e), true, src)]
    case Array(e, len) => if len != [] then [Visit(T(e), false, src)] else []
    case _ => []
  }

  /** The visits that a visit makes, in order. */
  function Kids(v: Visit): (r: seq<Visit>)
    ensures Smaller(r, NodeSize(v.node))
  {
    match v.node
    case D(d) => DeclKids(d, v.mode)
    case S(s) => StmtKids(s, v.mode, v.src)
    case E(e) => ExprKids(e, v.mode, v.src)
    case T(t) => TypeKids(t, v.src)
  }

  // ----- what a visit reports itself -----

  predicate IsComptimeType(structs: set<string>, name: string) {
    name in structs || name in COMPTIME_TYPES
  }

  /** The head of the type is a comptime type, or one whose parts decide. */
  predicate Accepted(structs: set<string>, t: TypeExpr, allowVoid: bool) {
    match t
    case Builtin(b) => b == BVoid && allowVoid
    case SelfType => true
    case SelfAlias => true
    case Const(_) => true
    case Splice(_) => true
    case ComptimeCall(_) => true
    case Named(name, generic, _) => !generic && IsComptimeType(structs, name)
    case Array(_, len) => len != []
    case _ => false
  }

  function Alternative(t: TypeExpr): Option<string> {
    match t
    case Builtin(b) =>
      if b.BI8? || b.BI16? || b.BI32? || b.BI64? || b.BIsize? || b.BU8? || b.BU16? || b.BU32? || b.BU64? ||
        b.BUsize? then
        Some("comptime_int")
      else if b.BF32? || b.BF64? then Some("comptime_float")
      else if b.BBool? then Some("comptime_bool")
      else if b.BChar? then Some("comptime_char")
      else None
    case Named(name, _, _) => if name == "str" || name == "String" then Some("comptime_str") else None
    case Array(e, len) => if len == [] && e == Builtin(BChar) then Some("comptime_str") else None
    case ManyPointer(e) => if e == Builtin(BChar) then Some("comptime_str") else None
    case _ => None
  }

  function MessageFor(t: TypeExpr, allowVoid: bool): Message {
    if t == Builtin(BVoid) && !allowVoid then OnlyAsReturnType
    else if Alternative(t).Some? then UseInstead(Alternative(t).value)
    else NotAllowed
  }

  function Own(structs: set<string>, v: Visit): seq<Error> {
    match v.node
    case D(_) => []
    case S(_) => []
    case E(e) => if e.Try? && v.mode then [Unsupported(v.src, e.operand)] else []
    case T(t) => if Accepted(structs, t, v.mode) then [] else [RuntimeType(v.src, t, MessageFor(t, v.mode))]
  }

  // ----- the errors of a traversal -----

  function Concat(parts: seq<seq<Error>>): seq<Error> {
    if parts == [] then [] else parts[0] + Concat(parts[1..])
  }

  function Errors(structs: set<string>, v: Visit): seq<Error>
    decreases NodeSize(v.node)
  {
    var kids := Kids(v);
    assert forall i :: 0 <= i < |kids| ==> kids[i] in kids;
    Own(structs, v) + Concat(seq(|kids|, i requires 0 <= i < |kids| => Errors(structs, kids[i])))
  }

  function ErrorsOf(structs: set<string>, vs: seq<Visit>): seq<Error> {
    if vs == [] then [] else Errors(structs, vs[0]) + ErrorsOf(structs, vs[1..])
  }

  lemma {:induction false} ConcatIs(structs: set<string>, vs: seq<Visit>, parts: seq<seq<Error>>)
    requires |parts| == |vs| && forall i :: 0 <= i < |vs| ==> parts[i] == Errors(structs, vs[i])
    ensures Concat(parts) == ErrorsOf(structs, vs)
  {
    if vs != [] {
      ConcatIs(structs, vs[1..], parts[1..]);
    }
  }

  /** A visit's own errors come first, then those of its parts in order. */
  lemma Unfold(structs: set<string>, v: Visit)
    ensures Errors(structs, v) == Own(structs, v) + ErrorsOf(structs, Kids(v))
  {
    var kids := Kids(v);
    assert forall i :: 0 <= i < |kids| ==> kids[i] in kids;
    ConcatIs(structs, kids, seq(|kids|, i requires 0 <= i < |kids| => Errors(structs, kids[i])));
  }

  lemma {:induction false} ErrorsOfAppend(structs: set<string>, a: seq<Visit>, b: seq<Visit>)
    ensures ErrorsOf(structs, a + b) == ErrorsOf(structs, a) + ErrorsOf(structs, b)
  {
    hide Errors;
    if a == [] {
      assert a + b == b;
    } else {
      ErrorsOfAppend(structs, a[1..], b);
      assert (a + b)[1..] == a[1..] + b;
    }
  }

  lemma ErrorsOfOne(structs: set<string>, v: Visit)
    ensures ErrorsOf(structs, [v]) == Errors(structs, v)
  {
    hide Errors;
    assert [v][1..] == [];
  }

  lemma {:induction false} NoErrorsOf(structs: set<string>, vs: seq<Visit>)
    ensures ErrorsOf(structs, vs) == [] <==> forall v :: v in vs ==> Errors(structs, v) == []
  {
    hide Errors;
    if vs != [] {
      NoErrorsOf(structs, vs[1..]);
      assert vs == [vs[0]] + vs[1..];
      assert ErrorsOf(structs, vs) == [] <==> Errors(structs, vs[0]) == [] && ErrorsOf(structs, vs[1..]) == [];
    }
  }
}
