/**
 The syntax that the comptime validator walks.  Names that it never reads are left out, an optional part is a
 sequence of at most one element, and a source is known by its number.
 */
module ComptimeAst {

  type Opt<T> = s: seq<T> | |s| <= 1

  type Source = nat

  datatype BuiltinType =
    | BI8 | BI16 | BI32 | BI64 | BIsize
    | BU8 | BU16 | BU32 | BU64 | BUsize
    | BF32 | BF64 | BBool | BChar | BVoid | BNever

  datatype TypeExpr =
    | Builtin(builtin: BuiltinType)
    | SelfType
    | SelfAlias
    | VaArgs
    | Named(name: string, generic: bool, args: seq<TypeExpr>)
    | Associated(base: TypeExpr)
    | Const(inner: TypeExpr)
    | TypeOf(of: Expr)
    | Splice(expr: Expr)
    | ComptimeCall(expr: Expr)
    | SinglePointer(inner: TypeExpr)
    | ManyPointer(inner: TypeExpr)
    | Array(element: TypeExpr, len: Opt<Expr>)
    | FnType(params: seq<TypeExpr>, ret: TypeExpr)
    | FatFn(params: seq<TypeExpr>, ret: TypeExpr)

  datatype Expr =
    | Literal
    | Ident(generics: seq<TypeExpr>)
    | TypeValue(ty: TypeExpr)
    | TargetVar
    | DeclExpr(decl: Decl)
    | Binary(lhs: Expr, rhs: Expr)
    | Unary(operand: Expr)
    | Call(callee: Expr, args: seq<Expr>)
    | MacroCall(args: seq<Expr>)
    | If(condition: Expr, thenBlock: Stmt, elseStmt: Opt<Stmt>)
    | Switch(object: Expr, arms: seq<Arm>)
    | FieldAccess(object: Expr, field: Expr)
    | SliceAccess(object: Expr, index: Expr)
    | StructInit(struct: Expr, values: seq<Expr>)
    | AnonymousStructInit(values: seq<Expr>)
    | ArrayInit(values: seq<Expr>)
    | ArrayRepeatInit(value: Expr, count: Expr)
    | Block(stmts: seq<Stmt>, trailing: Opt<Expr>)
    | Closure(params: seq<TypeExpr>, ret: Opt<TypeExpr>, body: Stmt)
    | ConditionalExpr(guarded: Expr, elseExpr: Opt<Expr>)
    | Range(start: Opt<Expr>, end: Opt<Expr>)
    | SpliceExpr(operand: Expr)
    | Try(operand: Expr)
    | ComptimeExpr(stmts: seq<Stmt>, trailing: Opt<Expr>)

  datatype Arm = Arm(guard: Opt<Expr>, body: Expr)

  datatype Stmt =
    | Let(explicit: Opt<TypeExpr>, init: Opt<Expr>)
    | Assign(object: Expr, value: Expr)
    | CompoundAssign(object: Expr, value: Expr)
    | Return(result: Opt<Expr>)
    | While(condition: Expr, update: Opt<Stmt>, block: Stmt, elseBlock: Opt<Stmt>)
    | For(condition: Expr, block: Stmt, elseBlock: Opt<Stmt>)
    | ExprStmt(expr: Expr)
    | TrailingExpr(expr: Expr)
    | NestedFn(decl: Decl)
    | ConditionalStmts(stmts: seq<Stmt>, elseBlock: Opt<Stmt>)
    | Break
    | Continue

  datatype Decl = Decl(kind: DeclKind, src: Source)

  datatype DeclKind =
    | FnDecl(params: seq<TypeExpr>, ret: Opt<TypeExpr>, wheres: seq<TypeExpr>, body: Opt<Stmt>)
    | StructDecl(fields: seq<TypeExpr>, methods: seq<Decl>)
    | EnumDecl(payloads: seq<TypeExpr>, methods: seq<Decl>)
    | InterfaceDecl(aliases: seq<Decl>, methods: seq<Decl>)
    | ImplementDecl(types: seq<TypeExpr>, aliases: seq<Decl>, methods: seq<Decl>)
    | GlobalVar(ty: TypeExpr, value: Expr)
    | ComptimeConst(value: Expr)
    | ComptimeFn(params: seq<TypeExpr>, ret: Opt<TypeExpr>, body: Opt<Stmt>)
    | ComptimeBlock(stmts: seq<Stmt>)
    | ComptimeStruct(name: string, fields: seq<TypeExpr>, methods: seq<Decl>)
    | ConditionalDecls(decls: seq<Decl>, otherwise: Opt<Decl>)
    | OtherDecl(types: seq<TypeExpr>)

  // ----- sizes, for inductions that cross the four kinds of node -----

  function TypeSize(t: TypeExpr): (n: nat)
    ensures n > 0
  {
    match t
    case Const(i) => 1 + TypeSize(i)
    case Splice(e) => 1 + ExprSize(e)
    case ComptimeCall(e) => 1 + ExprSize(e)
    case Array(e, _) => 1 + TypeSize(e)
    case _ => 1
  }

  function TypesSize(ts: seq<TypeExpr>): (n: nat)
    ensures forall i :: 0 <= i < |ts| ==> TypeSize(ts[i]) <= n
  {
    if ts == [] then 0
    else
      var n := TypeSize(ts[0]) + TypesSize(ts[1..]);
      assert forall i :: 0 < i < |ts| ==> ts[i] == ts[1..][i - 1];
      n
  }

  function ExprSize(e: Expr): (n: nat)
    ensures n > 0
  {
    match e
    case DeclExpr(d) => 1 + DeclSize(d)
    case Binary(l, r) => 1 + ExprSize(l) + ExprSize(r)
    case Unary(x) => 1 + ExprSize(x)
    case Call(c, args) => 1 + ExprSize(c) + ExprsSize(args)
    case MacroCall(args) => 1 + ExprsSize(args)
    case If(c, t, f) => 1 + ExprSize(c) + StmtSize(t) + StmtsSize(f)
    case Switch(o, arms) => 1 + ExprSize(o) + ArmsSize(arms)
    case FieldAccess(o, f) => 1 + ExprSize(o) + ExprSize(f)
    case SliceAccess(o, i) => 1 + ExprSize(o) + ExprSize(i)
    case StructInit(s, vs) => 1 + ExprSize(s) + ExprsSize(vs)
    case AnonymousStructInit(vs) => 1 + ExprsSize(vs)
    case ArrayInit(vs) => 1 + ExprsSize(vs)
    case ArrayRepeatInit(v, c) => 1 + ExprSize(v) + ExprSize(c)
    case Block(ss, t) => 1 + StmtsSize(ss) + ExprsSize(t)
    case Closure(_, _, b) => 1 + StmtSize(b)
    case ConditionalExpr(t, f) => 1 + ExprSize(t) + ExprsSize(f)
    case Range(s, f) => 1 + ExprsSize(s) + ExprsSize(f)
    case SpliceExpr(x) => 1 + ExprSize(x)
    case Try(x) => 1 + ExprSize(x)
    case ComptimeExpr(ss, t) => 1 + StmtsSize(ss) + ExprsSize(t)
    case _ => 1
  }

  function ExprsSize(es: seq<Expr>): (n: nat)
    ensures forall i :: 0 <= i < |es| ==> ExprSize(es[i]) <= n
  {
    if es == [] then 0
    else
      var n := ExprSize(es[0]) + ExprsSize(es[1..]);
      assert forall i :: 0 < i < |es| ==> es[i] == es[1..][i - 1];
      n
  }

  function ArmsSize(arms: seq<Arm>): (n: nat)
    ensures forall i :: 0 <= i < |arms| ==> ArmSize(arms[i]) <= n
  {
    if arms == [] then 0
    else
      var n := ArmSize(arms[0]) + ArmsSize(arms[1..]);
      assert forall i :: 0 < i < |arms| ==> arms[i] == arms[1..][i - 1];
      n
  }

  function ArmSize(a: Arm): nat {
    ExprsSize(a.guard) + ExprSize(a.body)
  }

  function StmtSize(s: Stmt): (n: nat)
    ensures n > 0
  {
    match s
    case Let(t, v) => 1 + TypesSize(t) + ExprsSize(v)
    case Assign(o, v) => 1 + ExprSize(o) + ExprSize(v)
    case CompoundAssign(o, v) => 1 + ExprSize(o) + ExprSize(v)
    case Return(v) => 1 + ExprsSize(v)
    case While(c, u, b, f) => 1 + ExprSize(c) + StmtsSize(u) + StmtSize(b) + StmtsSize(f)
    case For(c, b, f) => 1 + ExprSize(c) + StmtSize(b) + StmtsSize(f)
    case ExprStmt(e) => 1 + ExprSize(e)
    case TrailingExpr(e) => 1 + ExprSize(e)
    case NestedFn(d) => 1 + DeclSize(d)
    case ConditionalStmts(ss, f) => 1 + StmtsSize(ss) + StmtsSize(f)
    case _ => 1
  }

  function StmtsSize(ss: seq<Stmt>): (n: nat)
    ensures forall i :: 0 <= i < |ss| ==> StmtSize(ss[i]) <= n
  {
    if ss == [] then 0
    else
      var n := StmtSize(ss[0]) + StmtsSize(ss[1..]);
      assert forall i :: 0 < i < |ss| ==> ss[i] == ss[1..][i - 1];
      n
  }

  function DeclSize(d: Decl): (n: nat)
    ensures n > 0
  {
    match d.kind
    case FnDecl(ps, r, _, b) => 1 + TypesSize(ps) + TypesSize(r) + StmtsSize(b)
    case StructDecl(_, ms) => 1 + DeclsSize(ms)
    case EnumDecl(_, ms) => 1 + DeclsSize(ms)
    case InterfaceDecl(_, ms) => 1 + DeclsSize(ms)
    case ImplementDecl(_, _, ms) => 1 + DeclsSize(ms)
    case GlobalVar(_, v) => 1 + ExprSize(v)
    case ComptimeConst(v) => 1 + ExprSize(v)
    case ComptimeFn(ps, r, b) => 1 + TypesSize(ps) + TypesSize(r) + StmtsSize(b)
    case ComptimeBlock(ss) => 1 + StmtsSize(ss)
    case ComptimeStruct(_, fs, ms) => 1 + TypesSize(fs) + DeclsSize(ms)
    case _ => 1
  }

  function DeclsSize(ds: seq<Decl>): (n: nat)
    ensures forall i :: 0 <= i < |ds| ==> DeclSize(ds[i]) <= n
  {
    if ds == [] then 0
    else
      var n := DeclSize(ds[0]) + DeclsSize(ds[1..]);
      assert forall i :: 0 < i < |ds| ==> ds[i] == ds[1..][i - 1];
      n
  }
}
