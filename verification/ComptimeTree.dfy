/**
 The validator against the bare syntax.  Containment is read off the fields of the tree alone; the few fields
 that the validator does not enter are listed, and it decides exactly about what is contained outside them.
 */
module ComptimeTree {
  import opened ComptimeAst
  import opened ComptimeSpec
  import opened ComptimeCheck
  import opened ComptimeProof
  import opened Wrappers

  // ----- containment -----

  /** The field by which a node is contained in another.  `Inside` is every field that has no name of its own
      here. */
  datatype Role =
    | Inside
    | LetType
    | Parameter | Result
    | FieldType
    | Method
    | Alias
    | Guarded
    | Length
    | OtherType

  datatype Child = Child(role: Role, node: Node)

  predicate AnExpr(c: Child, role: Role, es: seq<Expr>) {
    c.role == role && c.node.E? && c.node.expr in es
  }

  predicate AStmt(c: Child, role: Role, ss: seq<Stmt>) {
    c.role == role && c.node.S? && c.node.stmt in ss
  }

  predicate ADecl(c: Child, role: Role, ds: seq<Decl>) {
    c.role == role && c.node.D? && c.node.decl in ds
  }

  predicate AType(c: Child, role: Role, ts: seq<TypeExpr>) {
    c.role == role && c.node.T? && c.node.ty in ts
  }

  predicate InDecl(d: Decl, c: Child) {
    match d.kind
    case FnDecl(ps, r, ws, b) =>
      AType(c, Parameter, ps) || AType(c, Result, r) || AType(c, OtherType, ws) || AStmt(c, Inside, b)
    case StructDecl(fs, ms) => AType(c, FieldType, fs) || ADecl(c, Method, ms)
    case EnumDecl(ps, ms) => AType(c, FieldType, ps) || ADecl(c, Method, ms)
    case InterfaceDecl(aliases, ms) => ADecl(c, Alias, aliases) || ADecl(c, Method, ms)
    case ImplementDecl(ts, aliases, ms) => AType(c, OtherType, ts) || ADecl(c, Alias, aliases) || ADecl(c, Method, ms)
    case GlobalVar(t, v) => AType(c, OtherType, [t]) || AnExpr(c, Inside, [v])
    case ComptimeConst(v) => AnExpr(c, Inside, [v])
    case ComptimeFn(ps, r, b) => AType(c, Parameter, ps) || AType(c, Result, r) || AStmt(c, Inside, b)
    case ComptimeBlock(ss) => AStmt(c, Inside, ss)
    case ComptimeStruct(_, fs, ms) => AType(c, FieldType, fs) || ADecl(c, Method, ms)
    case ConditionalDecls(ds, otherwise) => ADecl(c, Guarded, ds) || ADecl(c, Guarded, otherwise)
    case OtherDecl(ts) => AType(c, OtherType, ts)
  }

  predicate InStmt(s: Stmt, c: Child) {
    match s
    case Let(t, v) => AType(c, LetType, t) || AnExpr(c, Inside, v)
    case Assign(o, v) => AnExpr(c, Inside, [o, v])
    case CompoundAssign(o, v) => AnExpr(c, Inside, [o, v])
    case Return(v) => AnExpr(c, Inside, v)
    case While(e, u, b, f) =>
      AnExpr(c, Inside, [e]) || AStmt(c, Inside, u) || AStmt(c, Inside, [b]) || AStmt(c, Inside, f)
    case For(e, b, f) => AnExpr(c, Inside, [e]) || AStmt(c, Inside, [b]) || AStmt(c, Inside, f)
    case ExprStmt(e) => AnExpr(c, Inside, [e])
    case TrailingExpr(e) => AnExpr(c, Inside, [e])
    case NestedFn(d) => ADecl(c, Inside, [d])
    case ConditionalStmts(ss, f) => AStmt(c, Inside, ss) || AStmt(c, Inside, f)
    case Break => false
    case Continue => false
  }

  predicate InArm(a: Arm, c: Child) {
    AnExpr(c, Inside, a.guard) || AnExpr(c, Inside, [a.body])
  }

  predicate InExpr(e: Expr, c: Child) {
    match e
    case Literal => false
    case Ident(ts) => AType(c, OtherType, ts)
    case TypeValue(t) => AType(c, OtherType, [t])
    case TargetVar => false
    case DeclExpr(d) => ADecl(c, Inside, [d])
    case Binary(l, r) => AnExpr(c, Inside, [l, r])
    case Unary(x) => AnExpr(c, Inside, [x])
    case Call(f, args) => AnExpr(c, Inside, [f]) || AnExpr(c, Inside, args)
    case MacroCall(args) => AnExpr(c, Inside, args)
    case If(x, t, f) => AnExpr(c, Inside, [x]) || AStmt(c, Inside, [t]) || AStmt(c, Inside, f)
    case Switch(o, arms) => AnExpr(c, Inside, [o]) || exists a :: a in arms && InArm(a, c)
    case FieldAccess(o, f) => AnExpr(c, Inside, [o, f])
    case SliceAccess(o, i) => AnExpr(c, Inside, [o, i])
    case StructInit(s, vs) => AnExpr(c, Inside, [s]) || AnExpr(c, Inside, vs)
    case AnonymousStructInit(vs) => AnExpr(c, Inside, vs)
    case ArrayInit(vs) => AnExpr(c, Inside, vs)
    case ArrayRepeatInit(v, n) => AnExpr(c, Inside, [v, n])
    case Block(ss, t) => AStmt(c, Inside, ss) || AnExpr(c, Inside, t)
    case Closure(ps, r, b) => AType(c, Parameter, ps) || AType(c, Result, r) || AStmt(c, Inside, [b])
    case ConditionalExpr(x, f) => AnExpr(c, Inside, [x]) || AnExpr(c, Inside, f)
    case Range(s, f) => AnExpr(c, Inside, s) || AnExpr(c, Inside, f)
    case SpliceExpr(x) => AnExpr(c, Inside, [x])
    case Try(x) => AnExpr(c, Inside, [x])
    case ComptimeExpr(ss, t) => AStmt(c, Inside, ss) || AnExpr(c, Inside, t)
  }

  predicate InType(t: TypeExpr, c: Child) {
    match t
    case Builtin(_) => false
    case SelfType => false
    case SelfAlias => false
    case VaArgs => false
    case Named(_, _, ts) => AType(c, OtherType, ts)
    case Associated(b) => AType(c, Inside, [b])
    case Const(i) => AType(c, Inside, [i])
    case TypeOf(e) => AnExpr(c, Inside, [e])
    case Splice(e) => AnExpr(c, Inside, [e])
    case ComptimeCall(e) => AnExpr(c, Inside, [e])
    case SinglePointer(i) => AType(c, Inside, [i])
    case ManyPointer(i) => AType(c, Inside, [i])
    case Array(e, n) => AType(c, Inside, [e]) || AnExpr(c, Length, n)
    case FnType(ps, r) => AType(c, Inside, ps) || AType(c, Inside, [r])
    case FatFn(ps, r) => AType(c, Inside, ps) || AType(c, Inside, [r])
  }

  /** `c` is a child of `n`: some field of `n` holds it. */
  predicate Contains(n: Node, c: Child) {
    match n
    case D(d) => InDecl(d, c)
    case S(s) => InStmt(s, c)
    case E(e) => InExpr(e, c)
    case T(t) => InType(t, c)
  }

  /** A way from a declaration of the program down to something contained in it. */
  ghost predicate Walk(program: seq<Decl>, p: seq<Child>) {
    && p != [] && p[0].role == Inside && p[0].node.D? && p[0].node.decl in program
    && forall i :: 0 < i < |p| ==> Contains(p[i - 1].node, p[i])
  }

  function Last(p: seq<Child>): Child
    requires p != []
  {
    p[|p| - 1]
  }

  /** Comptime code: something around it opens comptime code, and nothing between closes it again. */
  ghost predicate InComptime(p: seq<Child>) {
    exists i :: 0 <= i < |p| - 1 && Opens(p[i].node) && forall j :: i < j < |p| - 1 ==> !Closes(p[j].node)
  }

  predicate IsFn(n: Node) {
    n.D? && n.decl.kind.FnDecl?
  }

  predicate IsComptimeFn(n: Node) {
    n.D? && n.decl.kind.ComptimeFn?
  }

  predicate IsComptimeStruct(n: Node) {
    n.D? && n.decl.kind.ComptimeStruct?
  }

  /** The end of `p` lies in a method of a comptime struct, right below the method. */
  predicate InStructMethod(p: seq<Child>) {
    |p| >= 3 && p[|p| - 2].role == Method && IsFn(p[|p| - 2].node) && IsComptimeStruct(p[|p| - 3].node)
  }

  /** The fields that the validator does not enter: the type of a runtime `let`; signatures, except those of
      comptime functions and of methods of comptime structs, of which it passes over the receiver; the types of
      runtime fields and variants; methods of comptime structs that are no functions; aliases; guarded declarations;
      the length of an array; and the types of globals, of implementations and clauses, of generic arguments and
      of type values. */
  ghost predicate Skipped(p: seq<Child>)
    requires |p| > 1
  {
    var above, c := p[|p| - 2].node, Last(p);
    match c.role
    case Inside => false
    case LetType => !InComptime(p)
    case Parameter =>
      !IsComptimeFn(above) && !(InStructMethod(p) && c.node.T? && !IsSelfReceiver(c.node.ty))
    case Result => !IsComptimeFn(above) && !InStructMethod(p)
    case FieldType => !IsComptimeStruct(above)
    case Method => IsComptimeStruct(above) && !IsFn(c.node)
    case _ => true
  }

  ghost predicate Entered(p: seq<Child>) {
    forall i :: 1 < i <= |p| ==> !Skipped(p[..i])
  }

  /** A `?` in comptime code, or a type that comptime code does not have; `void` may only be a result. */
  ghost predicate Offence(structs: set<string>, p: seq<Child>)
    requires p != []
  {
    || (Last(p).node.E? && Last(p).node.expr.Try? && InComptime(p))
    || (Last(p).node.T? && !Accepted(structs, Last(p).node.ty, Last(p).role == Result))
  }

  // ----- the visits of one node are its children -----

  lemma InExprs(es: seq<Expr>, mode: bool, src: Option<Source>, w: Visit)
    ensures w in VisitExprs(es, mode, src) <==>
            AnExpr(Child(Inside, w.node), Inside, es) && w.mode == mode && w.src == src
  {
    var vs := VisitExprs(es, mode, src);
    if w.node.E? && w.node.expr in es && w.mode == mode && w.src == src {
      var i :| 0 <= i < |es| && es[i] == w.node.expr;
      assert vs[i] == w;
    }
    hide Smaller;
  }

  lemma InStmts(ss: seq<Stmt>, mode: bool, src: Option<Source>, w: Visit)
    ensures w in VisitStmts(ss, mode, src) <==>
            AStmt(Child(Inside, w.node), Inside, ss) && w.mode == mode && w.src == src
  {
    var vs := VisitStmts(ss, mode, src);
    if w.node.S? && w.node.stmt in ss && w.mode == mode && w.src == src {
      var i :| 0 <= i < |ss| && ss[i] == w.node.stmt;
      assert vs[i] == w;
    }
    hide Smaller;
  }

  lemma InDecls(ds: seq<Decl>, role: Role, mode: bool, src: Option<Source>, w: Visit)
    ensures w in VisitDecls(ds, mode, src) <==>
            ADecl(Child(role, w.node), role, ds) && w.mode == mode && w.src == src
  {
    var vs := VisitDecls(ds, mode, src);
    if w.node.D? && w.node.decl in ds && w.mode == mode && w.src == src {
      var i :| 0 <= i < |ds| && ds[i] == w.node.decl;
      assert vs[i] == w;
    }
    hide Smaller;
  }

  lemma InTypes(ts: seq<TypeExpr>, role: Role, mode: bool, src: Option<Source>, w: Visit)
    ensures w in VisitTypes(ts, mode, src) <==>
            AType(Child(role, w.node), role, ts) && w.mode == mode && w.src == src
  {
    var vs := VisitTypes(ts, mode, src);
    if w.node.T? && w.node.ty in ts && w.mode == mode && w.src == src {
      var i :| 0 <= i < |ts| && ts[i] == w.node.ty;
      assert vs[i] == w;
    }
    hide Smaller;
  }

  lemma {:induction false} InArms(arms: seq<Arm>, mode: bool, src: Option<Source>, w: Visit)
    ensures w in VisitArms(arms, mode, src) <==>
            (exists a :: a in arms && InArm(a, Child(Inside, w.node))) && w.mode == mode && w.src == src
  {
    if arms != [] {
      InArms(arms[1..], mode, src, w);
      InExprs(arms[0].guard, mode, src, w);
      hide Smaller, Uniform, VisitExprs;
      var c := Child(Inside, w.node);
      if a :| a in arms && InArm(a, c) {
        assert a == arms[0] || a in arms[1..];
      }
      if InArm(arms[0], c) {
        assert arms[0] in arms;
      }
      if a :| a in arms[1..] && InArm(a, c) {
        assert a in arms;
      }
    }
  }

  /** The mode that a node passes on to what it contains. */
  predicate Passes'(n: Node, mode: bool) {
    if Opens(n) then true else if Closes(n) then false else mode
  }

  predicate IsBranch(e: Expr) {
    e.If? || e.Switch? || e.ConditionalExpr? || e.Range?
  }

  predicate IsBody(e: Expr) {
    e.DeclExpr? || e.Block? || e.Closure? || e.Try? || e.ComptimeExpr?
  }

  lemma ExprKidIff(e: Expr, mode: bool, src: Option<Source>, w: Visit)
    ensures w in FullKids(Visit(E(e), mode, src)) <==>
            InExpr(e, Child(Inside, w.node)) && w.mode == Passes'(E(e), mode) && w.src == src
  {
    hide *;
    if IsBranch(e) {
      BranchKidIff(e, mode, src, w);
    } else if IsBody(e) {
      BodyKidIff(e, mode, src, w);
    } else {
      PlainKidIff(e, mode, src, w);
    }
  }

  lemma PlainKidIff(e: Expr, mode: bool, src: Option<Source>, w: Visit)
    requires !IsBranch(e) && !IsBody(e)
    ensures w in FullKids(Visit(E(e), mode, src)) <==>
            InExpr(e, Child(Inside, w.node)) && w.mode == Passes'(E(e), mode) && w.src == src
  {
    hide Smaller, Uniform, VisitExprs, VisitStmts, VisitArms, VisitDecls, VisitTypes;
    match e
    case Call(_, args) => InExprs(args, mode, src, w);
    case MacroCall(args) => InExprs(args, mode, src, w);
    case StructInit(_, vs) => InExprs(vs, mode, src, w);
    case AnonymousStructInit(vs) => InExprs(vs, mode, src, w);
    case ArrayInit(vs) => InExprs(vs, mode, src, w);
    case _ =>
  }

  lemma BranchKidIff(e: Expr, mode: bool, src: Option<Source>, w: Visit)
    requires IsBranch(e)
    ensures w in FullKids(Visit(E(e), mode, src)) <==>
            InExpr(e, Child(Inside, w.node)) && w.mode == Passes'(E(e), mode) && w.src == src
  {
    hide Smaller, Uniform, VisitExprs, VisitStmts, VisitArms, VisitDecls, VisitTypes, InArm;
    match e
    case If(_, _, f) => InStmts(f, mode, src, w);
    case Switch(_, arms) => InArms(arms, mode, src, w);
    case ConditionalExpr(_, f) => InExprs(f, mode, src, w);
    case Range(s, f) =>
      InExprs(s, mode, src, w);
      InExprs(f, mode, src, w);
    case _ =>
  }

  lemma BodyKidIff(e: Expr, mode: bool, src: Option<Source>, w: Visit)
    requires IsBody(e)
    ensures w in FullKids(Visit(E(e), mode, src)) <==>
            InExpr(e, Child(Inside, w.node)) && w.mode == Passes'(E(e), mode) && w.src == src
  {
    hide Smaller, Uniform, VisitExprs, VisitStmts, VisitArms, VisitDecls, VisitTypes;
    match e
    case Block(ss, t) =>
      InStmts(ss, mode, src, w);
      InExprs(t, mode, src, w);
    case ComptimeExpr(ss, t) =>
      InStmts(ss, true, src, w);
      InExprs(t, true, src, w);
    case _ =>
  }

  lemma StmtKidIff(s: Stmt, mode: bool, src: Option<Source>, w: Visit)
    ensures w in FullKids(Visit(S(s), mode, src)) <==>
            && w.src == src
            && ((InStmt(s, Child(Inside, w.node)) && w.mode == Passes'(S(s), mode))
                || (InStmt(s, Child(LetType, w.node)) && mode && !w.mode))
  {
    hide Smaller, Uniform, VisitExprs, VisitStmts, VisitArms, VisitDecls, VisitTypes;
    match s
    case Let(t, v) =>
      InTypes(t, LetType, false, src, w);
      InExprs(v, mode, src, w);
    case Return(v) => InExprs(v, mode, src, w);
    case While(_, u, _, f) =>
      InStmts(u, mode, src, w);
      InStmts(f, mode, src, w);
    case For(_, _, f) => InStmts(f, mode, src, w);
    case ConditionalStmts(ss, f) =>
      InStmts(ss, mode, src, w);
      InStmts(f, mode, src, w);
    case _ =>
  }

  lemma TypeKidIff(structs: set<string>, t: TypeExpr, mode: bool, src: Option<Source>, w: Visit)
    requires Accepted(structs, t, mode)
    ensures w in FullKids(Visit(T(t), mode, src)) <==>
            InType(t, Child(Inside, w.node)) && w.mode == !w.node.T? && w.src == src
  {
  }

  lemma DeclKidIff(d: Decl, mode: bool, src: Option<Source>, w: Visit)
    requires !d.kind.ComptimeStruct?
    ensures w in FullKids(Visit(D(d), mode, src)) <==>
            && w.src == Some(d.src)
            && (((InDecl(d, Child(Inside, w.node)) || InDecl(d, Child(Method, w.node)))
                 && w.mode == Passes'(D(d), mode))
                || (InDecl(d, Child(Parameter, w.node)) && d.kind.ComptimeFn? && !w.mode)
                || (InDecl(d, Child(Result, w.node)) && d.kind.ComptimeFn? && w.mode))
  {
    var s, m := Some(d.src), Passes'(D(d), mode);
    hide Smaller, Uniform, VisitExprs, VisitStmts, VisitArms, VisitDecls, VisitTypes;
    match d.kind
    case FnDecl(_, _, _, b) => InStmts(b, m, s, w);
    case StructDecl(_, ms) => InDecls(ms, Method, m, s, w);
    case EnumDecl(_, ms) => InDecls(ms, Method, m, s, w);
    case InterfaceDecl(_, ms) => InDecls(ms, Method, m, s, w);
    case ImplementDecl(_, _, ms) => InDecls(ms, Method, m, s, w);
    case ComptimeFn(ps, r, b) =>
      InTypes(ps, Parameter, false, s, w);
      InTypes(r, Result, true, s, w);
      InStmts(b, true, s, w);
    case ComptimeBlock(ss) => InStmts(ss, true, s, w);
    case _ =>
  }

  /** What is entered of one method of a comptime struct. */
  predicate InMethod(m: Decl, w: Visit) {
    && m.kind.FnDecl?
    && ((InDecl(m, Child(Parameter, w.node)) && !IsSelfReceiver(w.node.ty) && !w.mode)
        || (InDecl(m, Child(Result, w.node)) && w.mode)
        || (InDecl(m, Child(Inside, w.node)) && w.mode))
  }

  lemma {:induction false} NotSelfIn(ts: seq<TypeExpr>, t: TypeExpr)
    ensures t in NotSelf(ts) <==> t in ts && !IsSelfReceiver(t)
  {
    if ts != [] {
      NotSelfIn(ts[1..], t);
      assert ts == [ts[0]] + ts[1..];
    }
  }

  lemma MethodKidIff(m: Decl, src: Option<Source>, w: Visit)
    ensures w in VisitMethod(m, src) <==> InMethod(m, w) && w.src == src
  {
    hide Smaller, Uniform, VisitExprs, VisitStmts, VisitArms, VisitDecls, VisitTypes;
    if m.kind.FnDecl? {
      InTypes(NotSelf(m.kind.params), Parameter, false, src, w);
      if w.node.T? {
        NotSelfIn(m.kind.params, w.node.ty);
      }
      InTypes(m.kind.ret, Result, true, src, w);
      InStmts(m.kind.body, true, src, w);
    }
  }

  lemma {:induction false} MethodsKidIff(ms: seq<Decl>, src: Option<Source>, w: Visit)
    ensures w in VisitMethods(ms, src) <==> (exists m :: m in ms && InMethod(m, w)) && w.src == src
  {
    hide VisitMethod, InMethod, Smaller;
    if ms != [] {
      MethodKidIff(ms[0], src, w);
      MethodsKidIff(ms[1..], src, w);
      assert ms == [ms[0]] + ms[1..];
    }
  }

  lemma StructKidIff(d: Decl, mode: bool, src: Option<Source>, w: Visit)
    requires d.kind.ComptimeStruct?
    ensures w in FullKids(Visit(D(d), mode, src)) <==>
            && w.src == Some(d.src)
            && ((InDecl(d, Child(FieldType, w.node)) && !w.mode) || exists m :: m in d.kind.methods && InMethod(m, w))
  {
    hide Smaller, Uniform, VisitTypes, VisitMethods, InMethod;
    InTypes(d.kind.fields, FieldType, false, Some(d.src), w);
    MethodsKidIff(d.kind.methods, Some(d.src), w);
  }

  // ----- one step down -----

  /** The mode of a visit to the end of a walk: for a type whether it is a result. */
  ghost predicate ModeAt(p: seq<Child>)
    requires p != []
  {
    if Last(p).node.T? then Last(p).role == Result else InComptime(p)
  }

  /** A method of a comptime struct is not visited itself; its parts are visited from the struct. */
  predicate IsStructMethod(p: seq<Child>) {
    |p| >= 2 && p[|p| - 1].role == Method && IsComptimeStruct(p[|p| - 2].node)
  }

  function Up(p: seq<Child>): seq<Child>
    requires p != []
  {
    p[..|p| - 1]
  }

  lemma ModeStep(p: seq<Child>)
    requires |p| > 1
    ensures InComptime(p) <==> Passes'(Last(Up(p)).node, InComptime(Up(p)))
  {
    var n, q := p[|p| - 2].node, Up(p);
    OpenOrClose(n);
    hide *;
    AroundHere(p);
    if !Opens(n) && !Closes(n) {
      AroundAbove(p);
    }
    OneAbove(n, InComptime(q));
    assert Last(q) == p[|p| - 2] by { LastOfUp(p); }
  }

  lemma LastOfUp(p: seq<Child>)
    requires |p| > 1
    ensures Last(Up(p)) == p[|p| - 2]
  {
  }

  lemma OneAbove(n: Node, mode: bool)
    ensures Opens(n) ==> Passes'(n, mode)
    ensures !Opens(n) && Closes(n) ==> !Passes'(n, mode)
    ensures !Opens(n) && !Closes(n) ==> Passes'(n, mode) == mode
  {
    hide Opens, Closes;
  }

  lemma AroundHere(p: seq<Child>)
    requires |p| > 1
    ensures Opens(p[|p| - 2].node) ==> InComptime(p)
    ensures !Opens(p[|p| - 2].node) && Closes(p[|p| - 2].node) ==> !InComptime(p)
  {
    hide Opens, Closes;
    if Opens(p[|p| - 2].node) {
      assert Opens(p[|p| - 2].node);
    }
  }

  lemma AroundAbove(p: seq<Child>)
    requires |p| > 1 && !Opens(p[|p| - 2].node) && !Closes(p[|p| - 2].node)
    ensures InComptime(p) <==> InComptime(Up(p))
  {
    hide Opens, Closes;
    var q := Up(p);
    assert forall i :: 0 <= i < |q| ==> q[i] == p[i];
  }

  lemma NothingAround(p: seq<Child>)
    requires |p| == 1
    ensures !InComptime(p)
  {
  }

  /** What contains something entered is entered. */
  lemma WalkUp(program: seq<Decl>, p: seq<Child>)
    requires Walk(program, p) && |p| > 1
    ensures Walk(program, Up(p)) && Contains(Last(Up(p)).node, Last(p))
    ensures Entered(p) <==> Entered(Up(p)) && !Skipped(p)
  {
    hide Contains, Skipped;
    var q := Up(p);
    assert p[..|p|] == p;
    assert forall i :: 1 < i <= |q| ==> q[..i] == p[..i];
  }

  /** A child entered here, as it is visited. */
  lemma ChildVisited(structs: set<string>, v: Visit, p: seq<Child>, w: Visit)
    requires |p| > 1 && v.node == p[|p| - 2].node && v.mode == ModeAt(Up(p))
    requires v.node.T? ==> Accepted(structs, v.node.ty, v.mode)
    requires Contains(v.node, Last(p)) && !Skipped(p) && !IsStructMethod(p) && !IsStructMethod(Up(p))
    requires w == Visit(Last(p).node, ModeAt(p), if v.node.D? then Some(v.node.decl.src) else v.src)
    ensures w in FullKids(v)
  {
    var c := Last(p);
    ModeStep(p);
    assert c == Child(c.role, w.node);
    hide FullKids, InComptime, Smaller;
    match v.node
    case E(e) =>
      hide InExpr;
      RoleOfExpr(e, c);
      ExprKidIff(e, v.mode, v.src, w);
    case S(s) =>
      hide InStmt;
      RoleOfStmt(s, c);
      StmtKidIff(s, v.mode, v.src, w);
    case T(t) =>
      hide InType;
      RoleOfType(t, c);
      TypeKidIff(structs, t, v.mode, v.src, w);
    case D(d) =>
      hide InDecl;
      RoleOfDecl(d, c);
      if d.kind.ComptimeStruct? {
        StructKidIff(d, v.mode, v.src, w);
      } else {
        DeclKidIff(d, v.mode, v.src, w);
      }
  }

  lemma RoleOfExpr(e: Expr, c: Child)
    requires InExpr(e, c)
    ensures c.role in {Inside, Parameter, Result, OtherType} && (c.role != Inside ==> c.node.T?)
    ensures c.role == Inside ==> !c.node.T?
  {
  }

  lemma RoleOfStmt(s: Stmt, c: Child)
    requires InStmt(s, c)
    ensures c.role in {Inside, LetType} && (c.role == LetType <==> c.node.T?)
  {
  }

  lemma RoleOfType(t: TypeExpr, c: Child)
    requires InType(t, c)
    ensures c.role in {Inside, Length, OtherType}
    ensures c.node.E? || c.node.T?
  {
  }

  lemma RoleOfDecl(d: Decl, c: Child)
    requires InDecl(d, c)
    ensures c.role in {Inside, Parameter, Result, FieldType, Method, Alias, Guarded, OtherType}
    ensures c.node.T? <==> c.role in {Parameter, Result, FieldType, OtherType}
  {
  }

  /** A part of a method of a comptime struct, as it is visited from the struct. */
  lemma MethodPartVisited(v: Visit, p: seq<Child>, w: Visit)
    requires |p| >= 3 && IsStructMethod(Up(p)) && v.node == p[|p| - 3].node
    requires Contains(p[|p| - 3].node, p[|p| - 2]) && Contains(p[|p| - 2].node, p[|p| - 1])
    requires !Skipped(Up(p)) && !Skipped(p) && w == Visit(Last(p).node, ModeAt(p), Some(v.node.decl.src))
    ensures w in FullKids(v)
  {
    hide Contains, Skipped, InComptime, InStructMethod, InMethod, ModeAt, FullKids;
    var d := v.node.decl;
    MethodAbove(p);
    EnteredPart(p, w);
    MethodIn(v.node, p[|p| - 2]);
    hide *;
    StructVisit(v);
    StructKidIff(d, v.mode, v.src, w);
  }

  lemma StructVisit(v: Visit)
    requires IsComptimeStruct(v.node)
    ensures v == Visit(D(v.node.decl), v.mode, v.src) && v.node.decl.kind.ComptimeStruct?
  {
  }

  lemma MethodIn(n: Node, c: Child)
    requires IsComptimeStruct(n) && Contains(n, c) && c.role == Method
    ensures c.node.D? && c.node.decl in n.decl.kind.methods
  {
  }

  /** Both a comptime struct and its methods stand for comptime code. */
  lemma MethodAbove(p: seq<Child>)
    requires |p| >= 3 && IsStructMethod(Up(p)) && Contains(p[|p| - 3].node, p[|p| - 2]) && !Skipped(Up(p))
    ensures IsComptimeStruct(p[|p| - 3].node) && p[|p| - 2].role == Method && IsFn(p[|p| - 2].node)
    ensures InComptime(p) && InStructMethod(p)
  {
    ModeStep(Up(p));
    ModeStep(p);
    hide InComptime;
  }

  /** The part of a method that is entered, and with what mode. */
  lemma EnteredPart(p: seq<Child>, w: Visit)
    requires |p| >= 3 && InStructMethod(p) && InComptime(p) && !Skipped(p) && Contains(p[|p| - 2].node, Last(p))
    requires w.node == Last(p).node && w.mode == ModeAt(p)
    ensures InMethod(p[|p| - 2].node.decl, w)
  {
    var m, c := p[|p| - 2].node.decl, Last(p);
    RoleOfDecl(m, c);
    assert c == Child(c.role, w.node);
    hide InDecl, InComptime, IsSelfReceiver;
  }

  lemma NoOwn(structs: set<string>, v: Visit)
    requires Errors(structs, v) == []
    ensures Own(structs, v) == []
  {
    Unfold(structs, v);
    hide Errors, ErrorsOf, Kids, Own;
  }

  /** No type above the end of the walk is one that comptime code does not have. */
  predicate TypesAccepted(structs: set<string>, p: seq<Child>) {
    forall i :: 0 <= i < |p| - 1 && p[i].node.T? ==> Accepted(structs, p[i].node.ty, p[i].role == Result)
  }

  /** Everything entered is visited, except below a type that is rejected; of a method of a comptime struct, the
      struct. */
  lemma {:induction false} WalkPath(structs: set<string>, program: seq<Decl>, p: seq<Child>) returns (q: seq<Visit>)
    requires Walk(program, p) && Entered(p) && TypesAccepted(structs, p)
    ensures q != [] && Path(q) && Root(program, q[0])
    ensures if IsStructMethod(p) then End(q).node == p[|p| - 2].node && End(q).mode == ModeAt(Up(p))
            else End(q).node == Last(p).node && End(q).mode == ModeAt(p)
    decreases |p|
  {
    hide Contains, FullKids, InComptime, Accepted;
    if |p| == 1 {
      q := [Visit(p[0].node, false, None)];
      InDecls(program, Inside, false, None, q[0]);
      NothingAround(p);
      hide VisitDecls;
    } else {
      WalkUp(program, p);
      var front := WalkPath(structs, program, Up(p));
      var u := End(front);
      if IsStructMethod(p) {
        q := front;
      } else if IsStructMethod(Up(p)) {
        WalkUp(program, Up(p));
        var v := Visit(Last(p).node, ModeAt(p), Some(u.node.decl.src));
        MethodPartVisited(u, p, v);
        q := Longer(front, v);
      } else {
        var v := Visit(Last(p).node, ModeAt(p), if u.node.D? then Some(u.node.decl.src) else u.src);
        ChildVisited(structs, u, p, v);
        q := Longer(front, v);
      }
    }
  }

  lemma Longer(front: seq<Visit>, v: Visit) returns (q: seq<Visit>)
    requires Path(front) && v in FullKids(End(front))
    ensures Path(q) && q[0] == front[0] && End(q) == v
  {
    hide FullKids;
    q := front + [v];
  }

  lemma RootClean(structs: set<string>, program: seq<Decl>, v: Visit)
    requires ErrorsOf(structs, VisitDecls(program, false, None)) == [] && Root(program, v)
    ensures Errors(structs, v) == []
  {
    NoErrorsOf(structs, VisitDecls(program, false, None));
    hide Errors, ErrorsOf, VisitDecls;
  }

  /** In a program without errors no entered type is rejected. */
  lemma {:induction false} CleanTypes(structs: set<string>, program: seq<Decl>, p: seq<Child>)
    requires Walk(program, p) && Entered(p) && ErrorsOf(structs, VisitDecls(program, false, None)) == []
    ensures TypesAccepted(structs, p)
    decreases |p|
  {
    hide Errors, ErrorsOf, Contains, FullKids, Own, InComptime, VisitDecls;
    if |p| > 1 {
      WalkUp(program, p);
      CleanTypes(structs, program, Up(p));
      CleanOffence(structs, program, Up(p));
    }
  }

  /** In a program without errors, what is entered and visited is no offence. */
  lemma CleanOffence(structs: set<string>, program: seq<Decl>, p: seq<Child>)
    requires Walk(program, p) && Entered(p) && ErrorsOf(structs, VisitDecls(program, false, None)) == []
    requires TypesAccepted(structs, p)
    ensures !Offence(structs, p)
  {
    hide Errors, ErrorsOf, Contains, FullKids, InComptime, VisitDecls, Accepted;
    var q := WalkPath(structs, program, p);
    RootClean(structs, program, q[0]);
    CleanPath(structs, q);
    NoOwn(structs, End(q));
    MethodIsDecl(program, p);
  }

  // ----- and back -----

  lemma Extended(program: seq<Decl>, p: seq<Child>, c: Child)
    requires Walk(program, p) && Contains(Last(p).node, c)
    ensures Walk(program, p + [c]) && Up(p + [c]) == p && Last(p + [c]) == c
    ensures Entered(p + [c]) <==> Entered(p) && !Skipped(p + [c])
    ensures InComptime(p + [c]) <==> Passes'(Last(p).node, InComptime(p))
  {
    var q := p + [c];
    hide Contains, Skipped, InComptime;
    assert Up(q) == p;
    assert forall i :: 0 <= i < |p| ==> q[i] == p[i];
    WalkUp(program, q);
    ModeStep(q);
  }

  /** Every visit from a node goes to a child that is entered, or to a part of a method of a comptime struct. */
  lemma {:induction false} PathWalk(structs: set<string>, program: seq<Decl>, q: seq<Visit>) returns (p: seq<Child>)
    requires Path(q) && Root(program, q[0])
    ensures p != [] && Walk(program, p) && Entered(p) && TypesAccepted(structs, p)
    ensures Last(p).node == End(q).node && End(q).mode == ModeAt(p) && !IsStructMethod(p)
    decreases |q|
  {
    hide FullKids, Contains, InComptime, Skipped, Accepted;
    var w := End(q);
    if |q| == 1 {
      InDecls(program, Inside, false, None, w);
      p := [Child(Inside, w.node)];
      NothingAround(p);
      hide VisitDecls;
    } else {
      var front := q[..|q| - 1];
      var v := End(front);
      assert w in FullKids(v);
      var r := PathWalk(structs, program, front);
      if IsComptimeStruct(v.node) {
        p := StructStep(structs, program, r, v, w);
      } else {
        var role := KidRole(v, w);
        p := r + [Child(role, w.node)];
        Extended(program, r, Child(role, w.node));
        HeadAccepted(structs, v, w, Last(r).role == Result);
        TypesExtended(structs, r, Child(role, w.node));
        StepEntered(r, v, w, role);
      }
    }
  }

  /** The field through which a visit is made. */
  lemma KidRole(v: Visit, w: Visit) returns (role: Role)
    requires w in FullKids(v) && !IsComptimeStruct(v.node)
    ensures Contains(v.node, Child(role, w.node))
    ensures role == Inside || role == Method || (role == LetType && v.mode)
            || ((role == Parameter || role == Result) && IsComptimeFn(v.node))
    ensures w.mode == if w.node.T? then role == Result else Passes'(v.node, v.mode)
  {
    hide FullKids, Smaller;
    match v.node
    case E(e) =>
      ExprKidIff(e, v.mode, v.src, w);
      role := Inside;
      RoleOfExpr(e, Child(role, w.node));
    case S(s) =>
      StmtKidIff(s, v.mode, v.src, w);
      role := if InStmt(s, Child(Inside, w.node)) then Inside else LetType;
      RoleOfStmt(s, Child(role, w.node));
    case T(t) =>
      TypeKid(v, w);
      role := Inside;
    case D(d) =>
      DeclKidIff(d, v.mode, v.src, w);
      role := if InDecl(d, Child(Inside, w.node)) then Inside
              else if InDecl(d, Child(Method, w.node)) then Method
              else if InDecl(d, Child(Parameter, w.node)) && !w.mode then Parameter else Result;
      RoleOfDecl(d, Child(role, w.node));
  }

  /** A type of which parts are visited is accepted. */
  lemma HeadAccepted(structs: set<string>, v: Visit, w: Visit, allowVoid: bool)
    requires w in FullKids(v)
    ensures v.node.T? ==> Accepted(structs, v.node.ty, allowVoid)
  {
    hide Smaller, DeclKids, StmtKids, ExprKids;
  }

  lemma TypesExtended(structs: set<string>, r: seq<Child>, c: Child)
    requires r != [] && TypesAccepted(structs, r)
    requires Last(r).node.T? ==> Accepted(structs, Last(r).node.ty, Last(r).role == Result)
    ensures TypesAccepted(structs, r + [c])
  {
    hide Accepted;
    assert forall i :: 0 <= i < |r| ==> (r + [c])[i] == r[i];
  }

  lemma TypeKid(v: Visit, w: Visit)
    requires v.node.T? && w in FullKids(v)
    ensures InType(v.node.ty, Child(Inside, w.node)) && w.mode == !w.node.T?
  {
  }

  lemma StepEntered(r: seq<Child>, v: Visit, w: Visit, role: Role)
    requires r != [] && v.node == Last(r).node && v.mode == ModeAt(r) && !IsStructMethod(r)
    requires !IsComptimeStruct(v.node) && Contains(v.node, Child(role, w.node))
    requires role == Inside || role == Method || (role == LetType && v.mode)
             || ((role == Parameter || role == Result) && IsComptimeFn(v.node))
    requires var p := r + [Child(role, w.node)]; InComptime(p) <==> Passes'(v.node, InComptime(r))
    requires w.mode == if w.node.T? then role == Result else Passes'(v.node, v.mode)
    ensures var p := r + [Child(role, w.node)];
            !Skipped(p) && w.mode == ModeAt(p) && !IsStructMethod(p)
  {
    var p := r + [Child(role, w.node)];
    assert p[|p| - 2] == Last(r);
    hide InComptime;
    if role == LetType {
      LetIsStmt(v.node, Child(role, w.node));
    }
    hide Contains;
  }

  lemma LetIsStmt(n: Node, c: Child)
    requires Contains(n, c) && c.role == LetType
    ensures n.S? && !Opens(n) && !Closes(n)
  {
  }

  lemma StructStep(structs: set<string>, program: seq<Decl>, r: seq<Child>, v: Visit, w: Visit) returns (p: seq<Child>)
    requires r != [] && Walk(program, r) && Entered(r) && TypesAccepted(structs, r)
    requires Last(r).node == v.node && IsComptimeStruct(v.node) && w in FullKids(v)
    ensures p != [] && Walk(program, p) && Entered(p) && TypesAccepted(structs, p)
    ensures Last(p).node == w.node && w.mode == ModeAt(p) && !IsStructMethod(p)
  {
    hide FullKids, InComptime, Smaller, Walk, Entered, InDecl, InMethod;
    var d := v.node.decl;
    StructKidIff(d, v.mode, v.src, w);
    if InDecl(d, Child(FieldType, w.node)) && !w.mode {
      var c := Child(FieldType, w.node);
      RoleOfDecl(d, c);
      Extended(program, r, c);
      TypesExtended(structs, r, c);
      p := r + [c];
    } else {
      var m :| m in d.kind.methods && InMethod(m, w);
      p := MethodStep(structs, program, r, v, m, w);
    }
  }

  lemma MethodStep(structs: set<string>, program: seq<Decl>, r: seq<Child>, v: Visit, m: Decl, w: Visit)
    returns (p: seq<Child>)
    requires r != [] && Walk(program, r) && Entered(r) && TypesAccepted(structs, r)
    requires Last(r).node == v.node && IsComptimeStruct(v.node)
    requires m in v.node.decl.kind.methods && InMethod(m, w)
    ensures p != [] && Walk(program, p) && Entered(p) && TypesAccepted(structs, p)
    ensures Last(p).node == w.node && w.mode == ModeAt(p) && !IsStructMethod(p)
  {
    var fn := Child(Method, D(m));
    var role := MethodRole(m, w);
    var c := Child(role, w.node);
    assert Contains(v.node, fn);
    hide FullKids, InComptime, Smaller, Walk, Entered, InDecl, InMethod, IsSelfReceiver;
    Extended(program, r, fn);
    Extended(program, r + [fn], c);
    TypesExtended(structs, r, fn);
    TypesExtended(structs, r + [fn], c);
    p := r + [fn] + [c];
    LastTwo(r, fn, c);
  }

  lemma LastTwo(r: seq<Child>, a: Child, b: Child)
    requires r != []
    ensures var p := r + [a] + [b]; p[|p| - 1] == b && p[|p| - 2] == a && p[|p| - 3] == Last(r)
    ensures var p := r + [a]; p[|p| - 1] == a && p[|p| - 2] == Last(r)
  {
  }

  lemma MethodRole(m: Decl, w: Visit) returns (role: Role)
    requires InMethod(m, w)
    ensures m.kind.FnDecl? && Contains(D(m), Child(role, w.node)) && role in {Inside, Parameter, Result}
    ensures w.node.T? <==> role != Inside
    ensures w.mode == (role != Parameter) && (role == Parameter ==> !IsSelfReceiver(w.node.ty))
  {
    role := if InDecl(m, Child(Inside, w.node)) && w.mode then Inside
            else if InDecl(m, Child(Result, w.node)) && w.mode then Result else Parameter;
    RoleOfDecl(m, Child(role, w.node));
    hide InDecl;
  }

  // ----- what is decided, in terms of the tree -----

  /** The validator, looking also below every `?`, comes to `n` with `mode`. */
  ghost predicate Visited(program: seq<Decl>, q: seq<Visit>, n: Node, mode: bool) {
    q != [] && Path(q) && Root(program, q[0]) && End(q).node == n && End(q).mode == mode
  }

  /** `n` is contained in the program by fields that are entered, and not below a type that is rejected. */
  ghost predicate Reachable(structs: set<string>, program: seq<Decl>, p: seq<Child>, n: Node, mode: bool) {
    && p != [] && Walk(program, p) && Entered(p) && TypesAccepted(structs, p) && !IsStructMethod(p)
    && Last(p).node == n && ModeAt(p) == mode
  }

  /** Whatever is contained outside the skipped fields and not below a rejected type is visited, with the mode that
      the code around it gives it, and nothing else is.  (A method of a comptime struct is not visited itself, its
      parts are visited from the struct.) */
  lemma ReachedIff(structs: set<string>, program: seq<Decl>, n: Node, mode: bool)
    ensures (exists q :: Visited(program, q, n, mode)) <==> exists p :: Reachable(structs, program, p, n, mode)
  {
    hide Path, Root, End, Walk, Entered, IsStructMethod, TypesAccepted, Last, ModeAt;
    if q :| Visited(program, q, n, mode) {
      var p := PathWalk(structs, program, q);
      assert Reachable(structs, program, p, n, mode);
    }
    if p :| Reachable(structs, program, p, n, mode) {
      var q := WalkPath(structs, program, p);
      assert Visited(program, q, n, mode);
    }
  }

  predicate DeclaresStruct(program: seq<Decl>, name: string) {
    exists d :: d in program && d.kind.ComptimeStruct? && d.kind.name == name
  }

  lemma StructsAre(program: seq<Decl>)
    ensures forall name :: name in CollectComptimeStructs(program) <==> DeclaresStruct(program, name)
  {
  }

  /** A program has no comptime errors exactly when nothing contained in it, outside the skipped fields, is a `?` in
      comptime code or a type that comptime code does not have. */
  lemma Decides(program: seq<Decl>)
    ensures var structs := CollectComptimeStructs(program);
            ErrorsOf(structs, VisitDecls(program, false, None)) == [] <==>
            forall p :: Walk(program, p) && Entered(p) ==> !Offence(structs, p)
    ensures forall name :: name in CollectComptimeStructs(program) <==> DeclaresStruct(program, name)
  {
    var structs := CollectComptimeStructs(program);
    var roots := VisitDecls(program, false, None);
    StructsAre(program);
    hide DeclaresStruct, CollectComptimeStructs, Errors, ErrorsOf, FullKids, Contains, InComptime, Skipped, VisitDecls;
    if ErrorsOf(structs, roots) == [] {
      forall p | p != [] && Walk(program, p) && Entered(p) ensures !Offence(structs, p) {
        CleanTypes(structs, program, p);
        CleanOffence(structs, program, p);
      }
    } else {
      NoErrorsOf(structs, roots);
      var root :| root in roots && Errors(structs, root) != [];
      var q := OffendingPath(structs, root);
      var p := PathWalk(structs, program, q);
      assert Offence(structs, p);
    }
  }

  lemma MethodIsDecl(program: seq<Decl>, p: seq<Child>)
    requires Walk(program, p)
    ensures IsStructMethod(p) ==> Last(p).node.D?
  {
    if IsStructMethod(p) {
      var d := p[|p| - 2].node.decl;
      assert Contains(p[|p| - 2].node, Last(p));
      RoleOfDecl(d, Last(p));
    }
  }
}
