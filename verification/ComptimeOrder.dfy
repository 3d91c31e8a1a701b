/**
 The order of the validator's visits: those of one node are what its fields hold, in the order of the fields, each
 once.
 */
module ComptimeOrder {
  import opened ComptimeAst
  import opened ComptimeSpec
  import opened ComptimeProof
  import opened ComptimeTree
  import opened Wrappers

  // ----- what the fields hold, in their order -----

  function Exprs(role: Role, es: seq<Expr>): (r: seq<Child>)
    ensures forall c :: c in r <==> AnExpr(c, role, es)
  {
    if es == [] then [] else [Child(role, E(es[0]))] + Exprs(role, es[1..])
  }

  function Stmts(role: Role, ss: seq<Stmt>): (r: seq<Child>)
    ensures forall c :: c in r <==> AStmt(c, role, ss)
  {
    if ss == [] then [] else [Child(role, S(ss[0]))] + Stmts(role, ss[1..])
  }

  function Decls(role: Role, ds: seq<Decl>): (r: seq<Child>)
    ensures forall c :: c in r <==> ADecl(c, role, ds)
  {
    if ds == [] then [] else [Child(role, D(ds[0]))] + Decls(role, ds[1..])
  }

  function Types(role: Role, ts: seq<TypeExpr>): (r: seq<Child>)
    ensures forall c :: c in r <==> AType(c, role, ts)
  {
    if ts == [] then [] else [Child(role, T(ts[0]))] + Types(role, ts[1..])
  }

  function Arms(arms: seq<Arm>): seq<Child> {
    if arms == [] then [] else Exprs(Inside, arms[0].guard) + Exprs(Inside, [arms[0].body]) + Arms(arms[1..])
  }

  function DeclFields(d: Decl): seq<Child> {
    match d.kind
    case FnDecl(ps, r, ws, b) => Types(Parameter, ps) + Types(Result, r) + Types(OtherType, ws) + Stmts(Inside, b)
    case StructDecl(fs, ms) => Types(FieldType, fs) + Decls(Method, ms)
    case EnumDecl(ps, ms) => Types(FieldType, ps) + Decls(Method, ms)
    case InterfaceDecl(aliases, ms) => Decls(Alias, aliases) + Decls(Method, ms)
    case ImplementDecl(ts, aliases, ms) => Types(OtherType, ts) + Decls(Alias, aliases) + Decls(Method, ms)
    case GlobalVar(t, v) => Types(OtherType, [t]) + Exprs(Inside, [v])
    case ComptimeConst(v) => Exprs(Inside, [v])
    case ComptimeFn(ps, r, b) => Types(Parameter, ps) + Types(Result, r) + Stmts(Inside, b)
    case ComptimeBlock(ss) => Stmts(Inside, ss)
    case ComptimeStruct(_, fs, ms) => Types(FieldType, fs) + Decls(Method, ms)
    case ConditionalDecls(ds, otherwise) => Decls(Guarded, ds) + Decls(Guarded, otherwise)
    case OtherDecl(ts) => Types(OtherType, ts)
  }

  function StmtFields(s: Stmt): seq<Child> {
    match s
    case Let(t, v) => Types(LetType, t) + Exprs(Inside, v)
    case Assign(o, v) => Exprs(Inside, [o, v])
    case CompoundAssign(o, v) => Exprs(Inside, [o, v])
    case Return(v) => Exprs(Inside, v)
    case While(e, u, b, f) => Exprs(Inside, [e]) + Stmts(Inside, u) + Stmts(Inside, [b]) + Stmts(Inside, f)
    case For(e, b, f) => Exprs(Inside, [e]) + Stmts(Inside, [b]) + Stmts(Inside, f)
    case ExprStmt(e) => Exprs(Inside, [e])
    case TrailingExpr(e) => Exprs(Inside, [e])
    case NestedFn(d) => Decls(Inside, [d])
    case ConditionalStmts(ss, f) => Stmts(Inside, ss) + Stmts(Inside, f)
    case Break => []
    case Continue => []
  }

  function ExprFields(e: Expr): seq<Child> {
    match e
    case Literal => []
    case Ident(ts) => Types(OtherType, ts)
    case TypeValue(t) => Types(OtherType, [t])
    case TargetVar => []
    case DeclExpr(d) => Decls(Inside, [d])
    case Binary(l, r) => Exprs(Inside, [l, r])
    case Unary(x) => Exprs(Inside, [x])
    case Call(f, args) => Exprs(Inside, [f]) + Exprs(Inside, args)
    case MacroCall(args) => Exprs(Inside, args)
    case If(x, t, f) => Exprs(Inside, [x]) + Stmts(Inside, [t]) + Stmts(Inside, f)
    case Switch(o, arms) => Exprs(Inside, [o]) + Arms(arms)
    case FieldAccess(o, f) => Exprs(Inside, [o, f])
    case SliceAccess(o, i) => Exprs(Inside, [o, i])
    case StructInit(s, vs) => Exprs(Inside, [s]) + Exprs(Inside, vs)
    case AnonymousStructInit(vs) => Exprs(Inside, vs)
    case ArrayInit(vs) => Exprs(Inside, vs)
    case ArrayRepeatInit(v, n) => Exprs(Inside, [v, n])
    case Block(ss, t) => Stmts(Inside, ss) + Exprs(Inside, t)
    case Closure(ps, r, b) => Types(Parameter, ps) + Types(Result, r) + Stmts(Inside, [b])
    case ConditionalExpr(x, f) => Exprs(Inside, [x]) + Exprs(Inside, f)
    case Range(s, f) => Exprs(Inside, s) + Exprs(Inside, f)
    case SpliceExpr(x) => Exprs(Inside, [x])
    case Try(x) => Exprs(Inside, [x])
    case ComptimeExpr(ss, t) => Stmts(Inside, ss) + Exprs(Inside, t)
  }

  function TypeFields(t: TypeExpr): seq<Child> {
    match t
    case Builtin(_) => []
    case SelfType => []
    case SelfAlias => []
    case VaArgs => []
    case Named(_, _, ts) => Types(OtherType, ts)
    case Associated(b) => Types(Inside, [b])
    case Const(i) => Types(Inside, [i])
    case TypeOf(e) => Exprs(Inside, [e])
    case Splice(e) => Exprs(Inside, [e])
    case ComptimeCall(e) => Exprs(Inside, [e])
    case SinglePointer(i) => Types(Inside, [i])
    case ManyPointer(i) => Types(Inside, [i])
    case Array(e, n) => Types(Inside, [e]) + Exprs(Length, n)
    case FnType(ps, r) => Types(Inside, ps) + Types(Inside, [r])
    case FatFn(ps, r) => Types(Inside, ps) + Types(Inside, [r])
  }

  /** All that a node contains, field by field. */
  function Fields(n: Node): seq<Child> {
    match n
    case D(d) => DeclFields(d)
    case S(s) => StmtFields(s)
    case E(e) => ExprFields(e)
    case T(t) => TypeFields(t)
  }

  lemma {:induction false} ArmsAre(arms: seq<Arm>, c: Child)
    ensures c in Arms(arms) <==> exists a :: a in arms && InArm(a, c)
  {
    if arms != [] {
      ArmsAre(arms[1..], c);
      hide Exprs;
      assert c in Arms(arms) <==> InArm(arms[0], c) || c in Arms(arms[1..]);
      hide InArm;
      assert forall a :: a in arms <==> a == arms[0] || a in arms[1..];
    }
  }

  lemma ExprFieldsAre(e: Expr, c: Child)
    ensures c in ExprFields(e) <==> InExpr(e, c)
  {
    hide Exprs, Stmts, Decls, Types, AnExpr, AStmt, ADecl, AType, Arms, InArm;
    if e.Switch? {
      ArmsAre(e.arms, c);
    }
  }

  /** The list of fields holds what the node contains. */
  lemma FieldsAre(n: Node, c: Child)
    ensures c in Fields(n) <==> Contains(n, c)
  {
    hide Exprs, Stmts, Decls, Types, AnExpr, AStmt, ADecl, AType, ExprFields, InExpr;
    if n.E? {
      ExprFieldsAre(n.expr, c);
    }
  }

  // ----- what is taken of them -----

  predicate Wanted(c: Child, roles: set<Role>, receivers: bool) {
    c.role in roles && (receivers || !(c.role == Parameter && c.node.T? && IsSelfReceiver(c.node.ty)))
  }

  /** The nodes in the fields of these roles, in order; parameters that are receivers are passed over where
      they are not wanted. */
  function Taken(cs: seq<Child>, roles: set<Role>, receivers: bool): seq<Node> {
    if cs == [] then []
    else (if Wanted(cs[0], roles, receivers) then [cs[0].node] else []) + Taken(cs[1..], roles, receivers)
  }

  function Nodes(vs: seq<Visit>): (r: seq<Node>)
    ensures |r| == |vs|
  {
    seq(|vs|, i requires 0 <= i < |vs| => vs[i].node)
  }

  lemma TakenStep(cs: seq<Child>, roles: set<Role>, receivers: bool)
    requires cs != []
    ensures Taken(cs, roles, receivers) ==
            (if Wanted(cs[0], roles, receivers) then [cs[0].node] else []) + Taken(cs[1..], roles, receivers)
  {
    hide Wanted;
  }

  lemma TakenNone(roles: set<Role>, receivers: bool)
    ensures Taken([], roles, receivers) == []
  {
  }

  lemma {:induction false} TakenJoin(a: seq<Child>, b: seq<Child>, roles: set<Role>, receivers: bool)
    ensures Taken(a + b, roles, receivers) == Taken(a, roles, receivers) + Taken(b, roles, receivers)
  {
    hide *;
    if a == [] {
      TakenNone(roles, receivers);
      assert a + b == b;
    } else {
      TakenJoin(a[1..], b, roles, receivers);
      TakenStep(a, roles, receivers);
      TakenStep(a + b, roles, receivers);
      assert (a + b)[1..] == a[1..] + b;
    }
  }

  lemma NoNodes()
    ensures Nodes([]) == []
  {
  }

  lemma NodesCons(v: Visit, rest: seq<Visit>)
    ensures Nodes([v] + rest) == [v.node] + Nodes(rest)
  {
  }

  lemma NodesJoin(a: seq<Visit>, b: seq<Visit>)
    ensures Nodes(a + b) == Nodes(a) + Nodes(b)
  {
  }

  // ----- lists of one kind -----

  lemma TakenCons(c: Child, rest: seq<Child>, roles: set<Role>, receivers: bool)
    ensures Taken([c] + rest, roles, receivers) ==
            (if Wanted(c, roles, receivers) then [c.node] else []) + Taken(rest, roles, receivers)
  {
    hide Wanted;
    assert ([c] + rest)[1..] == rest;
  }

  lemma {:induction false} TakenExprs(role: Role, xs: seq<Expr>, roles: set<Role>, receivers: bool, mode: bool,
      src: Option<Source>)
    ensures Taken(Exprs(role, xs), roles, receivers) == if role in roles then Nodes(VisitExprs(xs, mode, src)) else []
  {
    hide Taken, Nodes, Smaller;
    ExprsStep(role, xs, mode, src);
    if xs == [] {
      TakenNone(roles, receivers);
    } else {
      TakenExprs(role, xs[1..], roles, receivers, mode, src);
      TakenCons(Child(role, E(xs[0])), Exprs(role, xs[1..]), roles, receivers);
    }
  }

  lemma VisitExprsCons(xs: seq<Expr>, mode: bool, src: Option<Source>)
    requires xs != []
    ensures VisitExprs(xs, mode, src) == [Visit(E(xs[0]), mode, src)] + VisitExprs(xs[1..], mode, src)
  {
    hide Smaller, Uniform;
  }

  lemma ExprsStep(role: Role, xs: seq<Expr>, mode: bool, src: Option<Source>)
    ensures xs == [] ==> Exprs(role, xs) == [] && Nodes(VisitExprs(xs, mode, src)) == []
    ensures xs != [] ==>
              && Exprs(role, xs) == [Child(role, E(xs[0]))] + Exprs(role, xs[1..])
              && Nodes(VisitExprs(xs, mode, src)) == [E(xs[0])] + Nodes(VisitExprs(xs[1..], mode, src))
  {
    hide Smaller, Uniform, Nodes;
    if xs == [] {
      NoNodes();
    } else {
      VisitExprsCons(xs, mode, src);
      NodesCons(Visit(E(xs[0]), mode, src), VisitExprs(xs[1..], mode, src));
    }
  }

  lemma {:induction false} TakenStmts(role: Role, xs: seq<Stmt>, roles: set<Role>, receivers: bool, mode: bool,
      src: Option<Source>)
    ensures Taken(Stmts(role, xs), roles, receivers) == if role in roles then Nodes(VisitStmts(xs, mode, src)) else []
  {
    hide Taken, Nodes, Smaller;
    StmtsStep(role, xs, mode, src);
    if xs == [] {
      TakenNone(roles, receivers);
    } else {
      TakenStmts(role, xs[1..], roles, receivers, mode, src);
      TakenCons(Child(role, S(xs[0])), Stmts(role, xs[1..]), roles, receivers);
    }
  }

  lemma VisitStmtsCons(xs: seq<Stmt>, mode: bool, src: Option<Source>)
    requires xs != []
    ensures VisitStmts(xs, mode, src) == [Visit(S(xs[0]), mode, src)] + VisitStmts(xs[1..], mode, src)
  {
    hide Smaller, Uniform;
  }

  lemma StmtsStep(role: Role, xs: seq<Stmt>, mode: bool, src: Option<Source>)
    ensures xs == [] ==> Stmts(role, xs) == [] && Nodes(VisitStmts(xs, mode, src)) == []
    ensures xs != [] ==>
              && Stmts(role, xs) == [Child(role, S(xs[0]))] + Stmts(role, xs[1..])
              && Nodes(VisitStmts(xs, mode, src)) == [S(xs[0])] + Nodes(VisitStmts(xs[1..], mode, src))
  {
    hide Smaller, Uniform, Nodes;
    if xs == [] {
      NoNodes();
    } else {
      VisitStmtsCons(xs, mode, src);
      NodesCons(Visit(S(xs[0]), mode, src), VisitStmts(xs[1..], mode, src));
    }
  }

  lemma {:induction false} TakenDecls(role: Role, xs: seq<Decl>, roles: set<Role>, receivers: bool, mode: bool,
      src: Option<Source>)
    ensures Taken(Decls(role, xs), roles, receivers) == if role in roles then Nodes(VisitDecls(xs, mode, src)) else []
  {
    hide Taken, Nodes, Smaller;
    DeclsStep(role, xs, mode, src);
    if xs == [] {
      TakenNone(roles, receivers);
    } else {
      TakenDecls(role, xs[1..], roles, receivers, mode, src);
      TakenCons(Child(role, D(xs[0])), Decls(role, xs[1..]), roles, receivers);
    }
  }

  lemma VisitDeclsCons(xs: seq<Decl>, mode: bool, src: Option<Source>)
    requires xs != []
    ensures VisitDecls(xs, mode, src) == [Visit(D(xs[0]), mode, src)] + VisitDecls(xs[1..], mode, src)
  {
    hide Smaller, Uniform;
  }

  lemma DeclsStep(role: Role, xs: seq<Decl>, mode: bool, src: Option<Source>)
    ensures xs == [] ==> Decls(role, xs) == [] && Nodes(VisitDecls(xs, mode, src)) == []
    ensures xs != [] ==>
              && Decls(role, xs) == [Child(role, D(xs[0]))] + Decls(role, xs[1..])
              && Nodes(VisitDecls(xs, mode, src)) == [D(xs[0])] + Nodes(VisitDecls(xs[1..], mode, src))
  {
    hide Smaller, Uniform, Nodes;
    if xs == [] {
      NoNodes();
    } else {
      VisitDeclsCons(xs, mode, src);
      NodesCons(Visit(D(xs[0]), mode, src), VisitDecls(xs[1..], mode, src));
    }
  }

  lemma {:induction false} TakenTypes(role: Role, xs: seq<TypeExpr>, roles: set<Role>, receivers: bool, mode: bool,
      src: Option<Source>)
    ensures var taken := if receivers || role != Parameter then xs else NotSelf(xs);
            Taken(Types(role, xs), roles, receivers) ==
            if role in roles then Nodes(VisitTypes(taken, mode, src)) else []
  {
    hide Taken, Nodes, VisitTypes, IsSelfReceiver, NotSelf;
    NotSelfStep(xs);
    if xs == [] {
      NoTypes(role, mode, src);
      TakenNone(roles, receivers);
    } else {
      TakenTypes(role, xs[1..], roles, receivers, mode, src);
      TypesStep(role, xs);
      VisitTypesCons(xs[0], xs[1..], mode, src);
      assert [xs[0]] + xs[1..] == xs;
      VisitTypesCons(xs[0], NotSelf(xs[1..]), mode, src);
      TakenCons(Child(role, T(xs[0])), Types(role, xs[1..]), roles, receivers);
    }
  }

  lemma NotSelfStep(xs: seq<TypeExpr>)
    ensures xs == [] ==> NotSelf(xs) == []
    ensures xs != [] ==> NotSelf(xs) == if IsSelfReceiver(xs[0]) then NotSelf(xs[1..]) else [xs[0]] + NotSelf(xs[1..])
  {
    hide IsSelfReceiver, TypesSize;
  }

  lemma NoTypes(role: Role, mode: bool, src: Option<Source>)
    ensures Types(role, []) == [] && Nodes(VisitTypes([], mode, src)) == []
  {
  }

  lemma TypesStep(role: Role, xs: seq<TypeExpr>)
    requires xs != []
    ensures Types(role, xs) == [Child(role, T(xs[0]))] + Types(role, xs[1..])
  {
  }

  lemma VisitTypesCons(x: TypeExpr, rest: seq<TypeExpr>, mode: bool, src: Option<Source>)
    ensures Nodes(VisitTypes([x] + rest, mode, src)) == [T(x)] + Nodes(VisitTypes(rest, mode, src))
  {
    hide Smaller, Nodes, TypesSize;
    assert VisitTypes([x] + rest, mode, src) == [Visit(T(x), mode, src)] + VisitTypes(rest, mode, src);
    NodesCons(Visit(T(x), mode, src), VisitTypes(rest, mode, src));
  }

  // ----- the visits of one node -----

  predicate Agree(cs: seq<Child>, vs: seq<Visit>, roles: set<Role>) {
    Taken(cs, roles, true) == Nodes(vs)
  }

  lemma AgreeJoin(a: seq<Child>, x: seq<Visit>, b: seq<Child>, y: seq<Visit>, roles: set<Role>)
    requires Agree(a, x, roles) && Agree(b, y, roles)
    ensures Agree(a + b, x + y, roles)
  {
    TakenJoin(a, b, roles, true);
    NodesJoin(x, y);
    hide Taken, Nodes;
  }

  lemma AgreeRest(a: seq<Child>, b: seq<Child>, y: seq<Visit>, roles: set<Role>)
    requires Agree(a, [], roles) && Agree(b, y, roles)
    ensures Agree(a + b, y, roles)
  {
    AgreeJoin(a, [], b, y, roles);
    hide Agree;
    assert [] + y == y;
  }

  lemma AgreeExprs(es: seq<Expr>, mode: bool, src: Option<Source>, roles: set<Role>)
    requires Inside in roles
    ensures Agree(Exprs(Inside, es), VisitExprs(es, mode, src), roles)
    ensures |es| == 1 ==> VisitExprs(es, mode, src) == [Visit(E(es[0]), mode, src)]
    ensures |es| == 2 ==> VisitExprs(es, mode, src) == [Visit(E(es[0]), mode, src), Visit(E(es[1]), mode, src)]
  {
    TakenExprs(Inside, es, roles, true, mode, src);
    hide Taken, Nodes, Exprs, Smaller, Uniform;
  }

  lemma AgreeStmts(ss: seq<Stmt>, mode: bool, src: Option<Source>, roles: set<Role>)
    requires Inside in roles
    ensures Agree(Stmts(Inside, ss), VisitStmts(ss, mode, src), roles)
    ensures |ss| == 1 ==> VisitStmts(ss, mode, src) == [Visit(S(ss[0]), mode, src)]
  {
    TakenStmts(Inside, ss, roles, true, mode, src);
    hide Taken, Nodes, Stmts, Smaller, Uniform;
  }

  lemma AgreeDecls(role: Role, ds: seq<Decl>, mode: bool, src: Option<Source>, roles: set<Role>)
    ensures Agree(Decls(role, ds), if role in roles then VisitDecls(ds, mode, src) else [], roles)
    ensures |ds| == 1 ==> VisitDecls(ds, mode, src) == [Visit(D(ds[0]), mode, src)]
  {
    TakenDecls(role, ds, roles, true, mode, src);
    NoNodes();
    hide Taken, Nodes, Decls, Smaller, Uniform;
  }

  lemma AgreeTypes(role: Role, ts: seq<TypeExpr>, mode: bool, src: Option<Source>, roles: set<Role>)
    ensures Agree(Types(role, ts), if role in roles then VisitTypes(ts, mode, src) else [], roles)
  {
    TakenTypes(role, ts, roles, true, mode, src);
    NoNodes();
    hide Taken, Nodes, Types, Smaller;
  }

  lemma AgreeNone(roles: set<Role>)
    ensures Agree([], [], roles)
  {
  }

  lemma {:induction false} AgreeArms(arms: seq<Arm>, mode: bool, src: Option<Source>)
    ensures Agree(Arms(arms), VisitArms(arms, mode, src), {Inside})
  {
    hide Agree, Exprs, VisitExprs, Smaller, Uniform;
    AgreeNone({Inside});
    if arms != [] {
      var a := arms[0];
      AgreeExprs(a.guard, mode, src, {Inside});
      AgreeExprs([a.body], mode, src, {Inside});
      AgreeArms(arms[1..], mode, src);
      AgreeJoin(Exprs(Inside, a.guard), VisitExprs(a.guard, mode, src), Exprs(Inside, [a.body]),
        VisitExprs([a.body], mode, src), {Inside});
      AgreeJoin(Exprs(Inside, a.guard) + Exprs(Inside, [a.body]),
        VisitExprs(a.guard, mode, src) + VisitExprs([a.body], mode, src), Arms(arms[1..]),
        VisitArms(arms[1..], mode, src), {Inside});
    }
  }

  lemma ExprOrder(e: Expr, mode: bool, src: Option<Source>)
    ensures Agree(ExprFields(e), FullKids(Visit(E(e), mode, src)), {Inside})
  {
    hide *;
    if IsBranch(e) {
      BranchOrder(e, mode, src);
    } else if IsBody(e) {
      BodyOrder(e, mode, src);
    } else {
      PlainOrder(e, mode, src);
    }
  }

  lemma PlainOrder(e: Expr, mode: bool, src: Option<Source>)
    requires !IsBranch(e) && !IsBody(e)
    ensures Agree(ExprFields(e), FullKids(Visit(E(e), mode, src)), {Inside})
  {
    hide Agree, Smaller, Uniform, VisitExprs, Exprs, Types;
    AgreeNone({Inside});
    match e
    case Ident(ts) => AgreeTypes(OtherType, ts, mode, src, {Inside});
    case TypeValue(t) => AgreeTypes(OtherType, [t], mode, src, {Inside});
    case Binary(l, r) => AgreeExprs([l, r], mode, src, {Inside});
    case Unary(x) => AgreeExprs([x], mode, src, {Inside});
    case Call(f, args) => FirstAndRest(f, args, mode, src);
    case MacroCall(args) => AgreeExprs(args, mode, src, {Inside});
    case FieldAccess(o, f) => AgreeExprs([o, f], mode, src, {Inside});
    case SliceAccess(o, i) => AgreeExprs([o, i], mode, src, {Inside});
    case StructInit(o, vs) => FirstAndRest(o, vs, mode, src);
    case AnonymousStructInit(vs) => AgreeExprs(vs, mode, src, {Inside});
    case ArrayInit(vs) => AgreeExprs(vs, mode, src, {Inside});
    case ArrayRepeatInit(v, n) => AgreeExprs([v, n], mode, src, {Inside});
    case SpliceExpr(x) => AgreeExprs([x], mode, src, {Inside});
    case _ =>
  }

  lemma FirstAndRest(x: Expr, es: seq<Expr>, mode: bool, src: Option<Source>)
    ensures var vs := [Visit(E(x), mode, src)] + VisitExprs(es, mode, src);
            Agree(Exprs(Inside, [x]) + Exprs(Inside, es), vs, {Inside})
  {
    hide Agree, VisitExprs, Exprs;
    AgreeExprs([x], mode, src, {Inside});
    AgreeExprs(es, mode, src, {Inside});
    AgreeJoin(Exprs(Inside, [x]), VisitExprs([x], mode, src), Exprs(Inside, es), VisitExprs(es, mode, src), {Inside});
  }

  lemma BranchOrder(e: Expr, mode: bool, src: Option<Source>)
    requires IsBranch(e)
    ensures Agree(ExprFields(e), FullKids(Visit(E(e), mode, src)), {Inside})
  {
    hide Agree, Smaller, Uniform, VisitExprs, VisitStmts, VisitArms, Exprs, Stmts, Arms;
    match e
    case If(c, t, f) => BranchesOrder(c, t, f, mode, src, {Inside});
    case Switch(o, arms) =>
      AgreeExprs([o], mode, src, {Inside});
      AgreeArms(arms, mode, src);
      AgreeJoin(Exprs(Inside, [o]), VisitExprs([o], mode, src), Arms(arms), VisitArms(arms, mode, src), {Inside});
    case ConditionalExpr(x, f) => FirstAndRest(x, f, mode, src);
    case Range(a, b) =>
      AgreeExprs(a, mode, src, {Inside});
      AgreeExprs(b, mode, src, {Inside});
      AgreeJoin(Exprs(Inside, a), VisitExprs(a, mode, src), Exprs(Inside, b), VisitExprs(b, mode, src), {Inside});
    case _ =>
  }

  lemma BodyOrder(e: Expr, mode: bool, src: Option<Source>)
    requires IsBody(e)
    ensures Agree(ExprFields(e), FullKids(Visit(E(e), mode, src)), {Inside})
  {
    hide Agree, Smaller, Uniform, VisitExprs, VisitStmts, VisitDecls, Exprs, Stmts, Decls, Types;
    match e
    case DeclExpr(d) => AgreeDecls(Inside, [d], true, src, {Inside});
    case Block(ss, t) => StmtsAndLast(ss, t, mode, src);
    case Closure(ps, r, b) => ClosureOrder(ps, r, b, src);
    case Try(x) => AgreeExprs([x], mode, src, {Inside});
    case ComptimeExpr(ss, t) => StmtsAndLast(ss, t, true, src);
    case _ =>
  }

  lemma ClosureOrder(ps: seq<TypeExpr>, r: Opt<TypeExpr>, b: Stmt, src: Option<Source>)
    ensures Agree(Types(Parameter, ps) + Types(Result, r) + Stmts(Inside, [b]), [Visit(S(b), false, src)], {Inside})
  {
    hide Agree, VisitStmts, Stmts, Types;
    AgreeTypes(Parameter, ps, false, src, {Inside});
    AgreeTypes(Result, r, false, src, {Inside});
    AgreeStmts([b], false, src, {Inside});
    AgreeRest(Types(Parameter, ps), Types(Result, r), [], {Inside});
    AgreeRest(Types(Parameter, ps) + Types(Result, r), Stmts(Inside, [b]), VisitStmts([b], false, src), {Inside});
  }

  lemma StmtsAndLast(ss: seq<Stmt>, t: Opt<Expr>, mode: bool, src: Option<Source>)
    ensures Agree(Stmts(Inside, ss) + Exprs(Inside, t), InBlock(ss, t, mode, src), {Inside})
  {
    hide Agree, Smaller, Uniform, VisitExprs, VisitStmts, Exprs, Stmts;
    AgreeStmts(ss, mode, src, {Inside});
    AgreeExprs(t, mode, src, {Inside});
    AgreeJoin(Stmts(Inside, ss), VisitStmts(ss, mode, src), Exprs(Inside, t), VisitExprs(t, mode, src), {Inside});
  }

  predicate HasBlocks(s: Stmt) {
    s.While? || s.For? || s.ConditionalStmts? || s.NestedFn?
  }

  lemma StmtOrder(s: Stmt, mode: bool, src: Option<Source>)
    ensures Agree(StmtFields(s), FullKids(Visit(S(s), mode, src)), if mode then {Inside, LetType} else {Inside})
  {
    hide *;
    if HasBlocks(s) {
      BlockStmtOrder(s, mode, src);
    } else {
      PlainStmtOrder(s, mode, src);
    }
  }

  lemma PlainStmtOrder(s: Stmt, mode: bool, src: Option<Source>)
    requires !HasBlocks(s)
    ensures Agree(StmtFields(s), FullKids(Visit(S(s), mode, src)), if mode then {Inside, LetType} else {Inside})
  {
    var roles := if mode then {Inside, LetType} else {Inside};
    hide Agree, Smaller, Uniform, VisitExprs, VisitTypes, Exprs, Types;
    AgreeNone(roles);
    match s
    case Let(t, v) => LetOrder(t, v, mode, src, roles);
    case Assign(o, v) => AgreeExprs([o, v], mode, src, roles);
    case CompoundAssign(o, v) => AgreeExprs([o, v], mode, src, roles);
    case Return(v) => AgreeExprs(v, mode, src, roles);
    case ExprStmt(e) => AgreeExprs([e], mode, src, roles);
    case TrailingExpr(e) => AgreeExprs([e], mode, src, roles);
    case _ =>
  }

  lemma BlockStmtOrder(s: Stmt, mode: bool, src: Option<Source>)
    requires HasBlocks(s)
    ensures Agree(StmtFields(s), FullKids(Visit(S(s), mode, src)), if mode then {Inside, LetType} else {Inside})
  {
    var roles := if mode then {Inside, LetType} else {Inside};
    hide Agree, Smaller, Uniform, VisitStmts, VisitDecls, Stmts, Decls;
    match s
    case While(c, u, b, f) => WhileOrder(c, u, b, f, mode, src, roles);
    case For(c, b, f) => BranchesOrder(c, b, f, mode, src, roles);
    case NestedFn(d) => AgreeDecls(Inside, [d], false, src, roles);
    case ConditionalStmts(ss, f) => BothStmts(ss, f, mode, src, roles);
    case _ =>
  }

  lemma BranchesOrder(c: Expr, b: Stmt, f: Opt<Stmt>, mode: bool, src: Option<Source>, roles: set<Role>)
    requires Inside in roles
    ensures Agree(Exprs(Inside, [c]) + Stmts(Inside, [b]) + Stmts(Inside, f), Branches(c, b, f, mode, src), roles)
  {
    hide Agree, Smaller, Uniform, VisitExprs, VisitStmts, Exprs, Stmts;
    assert [Visit(E(c), mode, src)] + [Visit(S(b), mode, src)] == [Visit(E(c), mode, src), Visit(S(b), mode, src)];
    AgreeExprs([c], mode, src, roles);
    AgreeStmts([b], mode, src, roles);
    AgreeStmts(f, mode, src, roles);
    AgreeJoin(Exprs(Inside, [c]), VisitExprs([c], mode, src), Stmts(Inside, [b]), VisitStmts([b], mode, src), roles);
    AgreeJoin(Exprs(Inside, [c]) + Stmts(Inside, [b]), VisitExprs([c], mode, src) + VisitStmts([b], mode, src),
      Stmts(Inside, f), VisitStmts(f, mode, src), roles);
  }

  lemma LetOrder(t: Opt<TypeExpr>, v: Opt<Expr>, mode: bool, src: Option<Source>, roles: set<Role>)
    requires roles == if mode then {Inside, LetType} else {Inside}
    ensures Agree(Types(LetType, t) + Exprs(Inside, v),
              (if mode then VisitTypes(t, false, src) else []) + VisitExprs(v, mode, src), roles)
  {
    hide Agree, VisitExprs, VisitTypes, Exprs, Types;
    AgreeTypes(LetType, t, false, src, roles);
    AgreeExprs(v, mode, src, roles);
    AgreeJoin(Types(LetType, t), if mode then VisitTypes(t, false, src) else [], Exprs(Inside, v),
      VisitExprs(v, mode, src), roles);
  }

  lemma BothStmts(a: seq<Stmt>, b: seq<Stmt>, mode: bool, src: Option<Source>, roles: set<Role>)
    requires Inside in roles
    ensures Agree(Stmts(Inside, a) + Stmts(Inside, b), VisitStmts(a, mode, src) + VisitStmts(b, mode, src), roles)
  {
    hide Agree, VisitStmts, Stmts;
    AgreeStmts(a, mode, src, roles);
    AgreeStmts(b, mode, src, roles);
    AgreeJoin(Stmts(Inside, a), VisitStmts(a, mode, src), Stmts(Inside, b), VisitStmts(b, mode, src), roles);
  }

  lemma WhileOrder(c: Expr, u: Opt<Stmt>, b: Stmt, f: Opt<Stmt>, mode: bool, src: Option<Source>, roles: set<Role>)
    requires Inside in roles
    ensures Agree(Exprs(Inside, [c]) + Stmts(Inside, u) + Stmts(Inside, [b]) + Stmts(Inside, f),
              [Visit(E(c), mode, src)] + VisitStmts(u, mode, src) + [Visit(S(b), mode, src)] + VisitStmts(f, mode, src),
              roles)
  {
    hide Agree, Smaller, Uniform, VisitExprs, VisitStmts, Exprs, Stmts;
    var x, y, z := VisitExprs([c], mode, src), VisitStmts(u, mode, src), VisitStmts([b], mode, src);
    AgreeExprs([c], mode, src, roles);
    AgreeStmts(u, mode, src, roles);
    AgreeStmts([b], mode, src, roles);
    AgreeStmts(f, mode, src, roles);
    AgreeJoin(Exprs(Inside, [c]), x, Stmts(Inside, u), y, roles);
    AgreeJoin(Exprs(Inside, [c]) + Stmts(Inside, u), x + y, Stmts(Inside, [b]), z, roles);
    AgreeJoin(Exprs(Inside, [c]) + Stmts(Inside, u) + Stmts(Inside, [b]), x + y + z, Stmts(Inside, f),
      VisitStmts(f, mode, src), roles);
  }

  lemma TypeOrder(structs: set<string>, t: TypeExpr, mode: bool, src: Option<Source>)
    requires Accepted(structs, t, mode)
    ensures Agree(TypeFields(t), FullKids(Visit(T(t), mode, src)), {Inside})
  {
    hide Agree, Smaller, Uniform, VisitExprs, VisitTypes, Exprs, Types;
    AgreeNone({Inside});
    match t
    case Named(_, _, ts) => AgreeTypes(OtherType, ts, false, src, {Inside});
    case Const(i) => OneType(i, src);
    case Splice(e) => AgreeExprs([e], true, src, {Inside});
    case ComptimeCall(e) => AgreeExprs([e], true, src, {Inside});
    case Array(e, n) =>
      OneType(e, src);
      AgreeLength(n);
      AgreeJoin(Types(Inside, [e]), [Visit(T(e), false, src)], Exprs(Length, n), [], {Inside});
      assert [Visit(T(e), false, src)] + [] == [Visit(T(e), false, src)];
    case _ =>
  }

  lemma OneType(t: TypeExpr, src: Option<Source>)
    ensures Agree(Types(Inside, [t]), [Visit(T(t), false, src)], {Inside})
  {
    AgreeTypes(Inside, [t], false, src, {Inside});
    hide Agree, Types, Smaller;
    assert VisitTypes([t], false, src) == [Visit(T(t), false, src)];
  }

  lemma AgreeLength(n: Opt<Expr>)
    ensures Agree(Exprs(Length, n), [], {Inside})
  {
    TakenExprs(Length, n, {Inside}, true, false, None);
    NoNodes();
    hide Taken, Nodes, Exprs;
  }

  lemma DeclOrder(d: Decl, mode: bool, src: Option<Source>)
    requires !d.kind.ComptimeStruct?
    ensures Agree(DeclFields(d), FullKids(Visit(D(d), mode, src)),
              if d.kind.ComptimeFn? then {Inside, Parameter, Result} else {Inside, Method})
  {
    var roles := if d.kind.ComptimeFn? then {Inside, Parameter, Result} else {Inside, Method};
    var from := Some(d.src);
    hide Agree, Smaller, Uniform, VisitExprs, VisitStmts, VisitDecls, VisitTypes, Exprs, Stmts, Decls, Types;
    AgreeNone(roles);
    match d.kind
    case FnDecl(ps, r, ws, b) =>
      AgreeTypes(Parameter, ps, mode, from, roles);
      AgreeTypes(Result, r, mode, from, roles);
      AgreeTypes(OtherType, ws, mode, from, roles);
      AgreeStmts(b, mode, from, roles);
      AgreeRest(Types(Parameter, ps), Types(Result, r), [], roles);
      AgreeRest(Types(Parameter, ps) + Types(Result, r), Types(OtherType, ws), [], roles);
      AgreeRest(Types(Parameter, ps) + Types(Result, r) + Types(OtherType, ws), Stmts(Inside, b),
        VisitStmts(b, mode, from), roles);
    case StructDecl(fs, ms) => MethodsLast(Types(FieldType, fs), FieldType, fs, ms, mode, from, roles);
    case EnumDecl(ps, ms) => MethodsLast(Types(FieldType, ps), FieldType, ps, ms, mode, from, roles);
    case InterfaceDecl(aliases, ms) =>
      AgreeDecls(Alias, aliases, mode, from, roles);
      AgreeDecls(Method, ms, mode, from, roles);
      AgreeRest(Decls(Alias, aliases), Decls(Method, ms), VisitDecls(ms, mode, from), roles);
    case ImplementDecl(ts, aliases, ms) =>
      AgreeTypes(OtherType, ts, mode, from, roles);
      AgreeDecls(Alias, aliases, mode, from, roles);
      AgreeDecls(Method, ms, mode, from, roles);
      AgreeRest(Types(OtherType, ts), Decls(Alias, aliases), [], roles);
      AgreeRest(Types(OtherType, ts) + Decls(Alias, aliases), Decls(Method, ms), VisitDecls(ms, mode, from), roles);
    case GlobalVar(t, v) =>
      AgreeTypes(OtherType, [t], mode, from, roles);
      AgreeExprs([v], mode, from, roles);
      AgreeRest(Types(OtherType, [t]), Exprs(Inside, [v]), VisitExprs([v], mode, from), roles);
    case ComptimeConst(v) => AgreeExprs([v], true, from, roles);
    case ComptimeFn(ps, r, b) =>
      AgreeTypes(Parameter, ps, false, from, roles);
      AgreeTypes(Result, r, true, from, roles);
      AgreeStmts(b, true, from, roles);
      AgreeJoin(Types(Parameter, ps), VisitTypes(ps, false, from), Types(Result, r), VisitTypes(r, true, from), roles);
      AgreeJoin(Types(Parameter, ps) + Types(Result, r), VisitTypes(ps, false, from) + VisitTypes(r, true, from),
        Stmts(Inside, b), VisitStmts(b, true, from), roles);
    case ComptimeBlock(ss) => AgreeStmts(ss, true, from, roles);
    case ConditionalDecls(ds, otherwise) =>
      AgreeDecls(Guarded, ds, mode, from, roles);
      AgreeDecls(Guarded, otherwise, mode, from, roles);
      AgreeRest(Decls(Guarded, ds), Decls(Guarded, otherwise), [], roles);
    case OtherDecl(ts) => AgreeTypes(OtherType, ts, mode, from, roles);
  }

  lemma MethodsLast(fields: seq<Child>, role: Role, ts: seq<TypeExpr>, ms: seq<Decl>, mode: bool, src: Option<Source>,
      roles: set<Role>)
    requires fields == Types(role, ts) && role !in roles && Method in roles
    ensures Agree(fields + Decls(Method, ms), VisitDecls(ms, mode, src), roles)
  {
    hide Agree, Smaller, Uniform, VisitDecls, VisitTypes, Decls, Types;
    AgreeTypes(role, ts, mode, src, roles);
    AgreeDecls(Method, ms, mode, src, roles);
    AgreeRest(fields, Decls(Method, ms), VisitDecls(ms, mode, src), roles);
  }

  // ----- methods of comptime structs -----

  /** What is entered of the methods of a comptime struct: of each that is a function, in order, its parameters
      without the receiver, its result and its body. */
  function MethodNodes(ms: seq<Decl>): seq<Node> {
    if ms == [] then []
    else MethodParts(ms[0]) + MethodNodes(ms[1..])
  }

  function MethodParts(m: Decl): seq<Node> {
    if m.kind.FnDecl? then Taken(DeclFields(m), {Parameter, Result, Inside}, false) else []
  }

  lemma StructOrder(d: Decl, mode: bool, src: Option<Source>)
    requires d.kind.ComptimeStruct?
    ensures Nodes(FullKids(Visit(D(d), mode, src))) ==
            Taken(DeclFields(d), {FieldType}, true) + MethodNodes(d.kind.methods)
  {
    var from, fs, ms := Some(d.src), d.kind.fields, d.kind.methods;
    StructUnfolds(d, mode, src);
    hide *;
    NodesJoin(VisitTypes(fs, false, from), VisitMethods(ms, from));
    MethodsOrder(ms, from);
    OnlyFields(fs, ms, from);
  }

  lemma OnlyFields(fs: seq<TypeExpr>, ms: seq<Decl>, src: Option<Source>)
    ensures Taken(Types(FieldType, fs) + Decls(Method, ms), {FieldType}, true) == Nodes(VisitTypes(fs, false, src))
  {
    hide *;
    TakenTypes(FieldType, fs, {FieldType}, true, false, src);
    TakenDecls(Method, ms, {FieldType}, true, false, src);
    TakenJoin(Types(FieldType, fs), Decls(Method, ms), {FieldType}, true);
    assert Method !in {FieldType};
  }

  lemma StructUnfolds(d: Decl, mode: bool, src: Option<Source>)
    requires d.kind.ComptimeStruct?
    ensures DeclFields(d) == Types(FieldType, d.kind.fields) + Decls(Method, d.kind.methods)
    ensures FullKids(Visit(D(d), mode, src)) ==
            VisitTypes(d.kind.fields, false, Some(d.src)) + VisitMethods(d.kind.methods, Some(d.src))
  {
    hide Smaller, Uniform, VisitDecls, VisitTypes, VisitMethods, Decls, Types;
  }

  lemma {:induction false} MethodsOrder(ms: seq<Decl>, src: Option<Source>)
    ensures Nodes(VisitMethods(ms, src)) == MethodNodes(ms)
  {
    hide Smaller, VisitMethod, MethodParts, Nodes;
    if ms == [] {
      NoNodes();
    } else {
      MethodsOrder(ms[1..], src);
      MethodOrder(ms[0], src);
      NodesJoin(VisitMethod(ms[0], src), VisitMethods(ms[1..], src));
    }
  }

  lemma MethodOrder(m: Decl, src: Option<Source>)
    ensures Nodes(VisitMethod(m, src)) == MethodParts(m)
  {
    hide Smaller, Uniform, VisitStmts, VisitTypes, Types, Stmts, Taken, Nodes, NotSelf;
    if m.kind.FnDecl? {
      var roles := {Parameter, Result, Inside};
      var ps, r, ws, b := m.kind.params, m.kind.ret, m.kind.wheres, m.kind.body;
      TakenTypes(Parameter, ps, roles, false, false, src);
      TakenTypes(Result, r, roles, false, true, src);
      TakenTypes(OtherType, ws, roles, false, true, src);
      TakenStmts(Inside, b, roles, false, true, src);
      TakenJoin(Types(Parameter, ps), Types(Result, r), roles, false);
      TakenJoin(Types(Parameter, ps) + Types(Result, r), Types(OtherType, ws), roles, false);
      TakenJoin(Types(Parameter, ps) + Types(Result, r) + Types(OtherType, ws), Stmts(Inside, b), roles, false);
      NodesJoin(VisitTypes(NotSelf(ps), false, src), VisitTypes(r, true, src));
      NodesJoin(VisitTypes(NotSelf(ps), false, src) + VisitTypes(r, true, src), VisitStmts(b, true, src));
    } else {
      NoNodes();
    }
  }

  // ----- every node -----

  /** What is entered of a node, in the order of its fields. */
  function EnteredOf(n: Node, mode: bool): seq<Node> {
    match n
    case D(d) =>
      if d.kind.ComptimeStruct? then Taken(Fields(n), {FieldType}, true) + MethodNodes(d.kind.methods)
      else Taken(Fields(n), if d.kind.ComptimeFn? then {Inside, Parameter, Result} else {Inside, Method}, true)
    case S(_) => Taken(Fields(n), if mode then {Inside, LetType} else {Inside}, true)
    case _ => Taken(Fields(n), {Inside}, true)
  }

  /** A node that is not a rejected type visits exactly what is entered of it: each once, in the order of the
      fields, and in a comptime struct method by method. */
  lemma VisitsInOrder(structs: set<string>, v: Visit)
    requires v.node.T? ==> Accepted(structs, v.node.ty, v.mode)
    ensures Nodes(FullKids(v)) == EnteredOf(v.node, v.mode)
  {
    hide FullKids, ExprFields, StmtFields, TypeFields, DeclFields, Taken, Nodes, MethodNodes, Accepted;
    match v.node
    case E(e) => ExprOrder(e, v.mode, v.src);
    case S(s) => StmtOrder(s, v.mode, v.src);
    case T(t) => TypeOrder(structs, t, v.mode, v.src);
    case D(d) =>
      if d.kind.ComptimeStruct? {
        StructOrder(d, v.mode, v.src);
      } else {
        DeclOrder(d, v.mode, v.src);
      }
  }
}
