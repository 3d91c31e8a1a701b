/**
 What the validator decides: a program passes exactly when no `?` stands at a comptime position and every
 type that is checked is a comptime type.
 */
module ComptimeProof {
  import opened ComptimeAst
  import opened ComptimeSpec
  import opened ComptimeCheck
  import opened Wrappers

  /** The whole tree, also below a `?` in comptime code, at which the validator stops. */
  function FullKids(v: Visit): seq<Visit> {
    if v.node.E? && v.node.expr.Try? then One(v.node.expr.operand, v.mode, v.src) else Kids(v)
  }

  /** A way down the tree. */
  ghost predicate Path(p: seq<Visit>) {
    p != [] && forall i :: 0 < i < |p| ==> p[i] in FullKids(p[i - 1])
  }

  function End(p: seq<Visit>): Visit
    requires p != []
  {
    p[|p| - 1]
  }

  predicate Offends(structs: set<string>, v: Visit) {
    Own(structs, v) != []
  }

  lemma CleanKid(structs: set<string>, v: Visit, k: Visit)
    requires Errors(structs, v) == [] && k in FullKids(v)
    ensures Errors(structs, k) == [] && !Offends(structs, v)
  {
    Unfold(structs, v);
    NoErrorsOf(structs, Kids(v));
    hide Errors, ErrorsOf, DeclKids, StmtKids, TypeKids;
  }

  lemma {:induction false} CleanPath(structs: set<string>, p: seq<Visit>)
    requires Path(p) && Errors(structs, p[0]) == []
    ensures Errors(structs, End(p)) == []
  {
    hide Errors, FullKids;
    if |p| > 1 {
      var q := p[..|p| - 1];
      CleanPath(structs, q);
      CleanKid(structs, End(q), End(p));
    }
  }

  lemma {:induction false} OffendingPath(structs: set<string>, v: Visit) returns (p: seq<Visit>)
    requires Errors(structs, v) != []
    ensures Path(p) && p[0] == v && Offends(structs, End(p))
    decreases NodeSize(v.node)
  {
    hide Errors, ErrorsOf, DeclKids, StmtKids, TypeKids, NodeSize;
    Unfold(structs, v);
    if Own(structs, v) != [] {
      p := [v];
    } else {
      NoErrorsOf(structs, Kids(v));
      var k :| k in Kids(v) && Errors(structs, k) != [];
      var rest := OffendingPath(structs, k);
      p := [v] + rest;
      NoStop(structs, v);
      forall i | 0 < i < |p| ensures p[i] in FullKids(p[i - 1]) {
        assert p[i] == rest[i - 1];
      }
    }
  }

  lemma NoStop(structs: set<string>, v: Visit)
    requires Own(structs, v) == []
    ensures FullKids(v) == Kids(v)
  {
  }

  /** A visit is clean exactly when no way down from it ends at an offence. */
  lemma CleanIff(structs: set<string>, v: Visit)
    ensures Errors(structs, v) == [] <==> forall p :: Path(p) && p[0] == v ==> !Offends(structs, End(p))
  {
    hide FullKids, Errors, Own;
    if Errors(structs, v) == [] {
      forall p | p != [] && Path(p) && p[0] == v ensures !Offends(structs, End(p)) {
        CleanPath(structs, p);
        Unfold(structs, End(p));
      }
    } else {
      var p := OffendingPath(structs, v);
    }
  }

  // ----- modes and sources, read off the path -----

  /** Inside these everything is comptime code, */
  predicate Opens(n: Node) {
    match n
    case D(d) => d.kind.ComptimeFn? || d.kind.ComptimeConst? || d.kind.ComptimeBlock? || d.kind.ComptimeStruct?
    case S(_) => false
    case E(e) => e.ComptimeExpr? || e.DeclExpr?
    case T(_) => true
  }

  /** and inside these everything is runtime code again. */
  predicate Closes(n: Node) {
    match n
    case D(_) => false
    case S(s) => s.NestedFn?
    case E(e) => e.Closure?
    case T(_) => false
  }

  ghost predicate ComptimePosition(p: seq<Visit>) {
    exists i :: 0 <= i < |p| - 1 && Opens(p[i].node) && forall j :: i < j < |p| - 1 ==> !Closes(p[j].node)
  }

  /** The mode and the source that a visit passes on. */
  predicate PassedOn(v: Visit, k: Visit) {
    && k.src == (if v.node.D? then Some(v.node.decl.src) else v.src)
    && (!k.node.T? ==> k.mode == if Opens(v.node) then true else if Closes(v.node) then false else v.mode)
  }

  lemma {:induction false} MethodKids(ms: seq<Decl>, src: Option<Source>)
    ensures forall k :: k in VisitMethods(ms, src) ==> k.src == src && (!k.node.T? ==> k.mode)
  {
    if ms != [] {
      var m := ms[0].kind;
      if m.FnDecl? {
        FnKids(NotSelf(m.params), m.ret, m.body, src);
      }
      MethodKids(ms[1..], src);
      hide VisitFn;
    }
  }

  lemma FnKids(params: seq<TypeExpr>, ret: Opt<TypeExpr>, body: Opt<Stmt>, src: Option<Source>)
    ensures forall k :: k in VisitFn(params, ret, body, src) ==> k.src == src && (!k.node.T? ==> k.mode)
  {
    var a, b, c := VisitTypes(params, false, src), VisitTypes(ret, true, src), VisitStmts(body, true, src);
    hide VisitStmts, Smaller;
    forall k | k in VisitFn(params, ret, body, src) ensures k.src == src && (!k.node.T? ==> k.mode) {
      assert k in a || k in b || k in c;
    }
  }

  lemma ExprPassesOn(v: Visit, k: Visit)
    requires v.node.E? && k in FullKids(v)
    ensures PassedOn(v, k)
  {
    hide Smaller, ExprSize, StmtSize, DeclSize, ExprsSize, StmtsSize, ArmsSize, DeclKids, StmtKids, TypeKids, VisitArms,
         VisitExprs, VisitStmts,
         VisitDecls, One, Two, OneAnd, Branches, InBlock, InSwitch, Ends, OneDecl, OneStmt;
  }

  lemma StmtPassesOn(v: Visit, k: Visit)
    requires v.node.S? && k in FullKids(v)
    ensures PassedOn(v, k)
  {
    hide Smaller, ExprSize, StmtSize, DeclSize, ExprsSize, StmtsSize, ArmsSize, DeclKids, ExprKids, TypeKids, VisitArms,
         VisitExprs, VisitStmts,
         VisitDecls, One, Two, OneAnd, Branches, InBlock, InSwitch, Ends, OneDecl, OneStmt;
  }

  lemma PassesOn(v: Visit, k: Visit)
    requires k in FullKids(v)
    ensures PassedOn(v, k)
  {
    hide Smaller, ExprSize, StmtSize, DeclSize, ExprsSize, StmtsSize, ArmsSize, StmtKids, ExprKids, VisitMethods;
    if v.node.E? {
      ExprPassesOn(v, k);
    } else if v.node.S? {
      StmtPassesOn(v, k);
    } else if v.node.D? && v.node.decl.kind.ComptimeStruct? {
      MethodKids(v.node.decl.kind.methods, Some(v.node.decl.src));
    }
  }

  /** The mode of a node is comptime exactly when the innermost thing around it that sets the mode opens
      comptime code. */
  lemma {:induction false} ModeIs(p: seq<Visit>)
    requires Path(p) && !p[0].mode && !p[0].node.T? && !End(p).node.T?
    ensures End(p).mode <==> ComptimePosition(p)
  {
    hide FullKids, Opens, Closes;
    if |p| > 1 {
      var n := |p| - 2;
      var q := p[..n + 1];
      var v := p[n];
      assert End(p) in FullKids(v);
      PassesOn(v, End(p));
      OpenOrClose(v.node);
      if Opens(v.node) {
        assert Opens(p[n].node);
      } else if Closes(v.node) {
        forall i | 0 <= i < |p| - 1 && Opens(p[i].node) ensures exists j :: i < j < |p| - 1 && Closes(p[j].node) {
          assert p[n] == v;
        }
      } else {
        ModeIs(q);
        if ComptimePosition(q) {
          var i :| 0 <= i < |q| - 1 && Opens(q[i].node) && forall j :: i < j < |q| - 1 ==> !Closes(q[j].node);
          assert Opens(p[i].node) && forall j :: i < j < |p| - 1 ==> !Closes(p[j].node);
        }
        if ComptimePosition(p) {
          var i :| 0 <= i < |p| - 1 && Opens(p[i].node) && forall j :: i < j < |p| - 1 ==> !Closes(p[j].node);
          assert i < n && Opens(q[i].node) && forall j :: i < j < |q| - 1 ==> !Closes(q[j].node);
        }
      }
    }
  }

  lemma OpenOrClose(n: Node)
    ensures n.T? ==> Opens(n)
    ensures !(Opens(n) && Closes(n))
  {
  }

  /** A node is reported with the source of the innermost declaration around it that the walk enters as one. */
  lemma {:induction false} InnermostSource(p: seq<Visit>) returns (i: nat)
    requires Path(p) && p[0].node.D? && |p| > 1
    ensures i < |p| - 1 && p[i].node.D? && End(p).src == Some(p[i].node.decl.src)
    ensures forall j :: i < j < |p| - 1 ==> !p[j].node.D?
  {
    hide FullKids, Opens, Closes;
    var n := |p| - 2;
    assert End(p) in FullKids(p[n]);
    PassesOn(p[n], End(p));
    if p[n].node.D? {
      i := n;
    } else {
      i := InnermostSource(p[..n + 1]);
    }
  }

  // ----- what is decided -----

  predicate Root(program: seq<Decl>, v: Visit) {
    v in VisitDecls(program, false, None)
  }

  /** A program has no comptime errors exactly when, all the way down from its declarations, no `?` stands at
      a comptime position and every type reached is accepted. */
  lemma DecidesOnPaths(program: seq<Decl>)
    ensures var structs := CollectComptimeStructs(program);
            ErrorsOf(structs, VisitDecls(program, false, None)) == [] <==>
            forall p :: Path(p) && Root(program, p[0]) ==>
                          && (End(p).node.E? && End(p).node.expr.Try? ==> !ComptimePosition(p))
                          && (End(p).node.T? ==> Accepted(structs, End(p).node.ty, End(p).mode))
  {
    var structs := CollectComptimeStructs(program);
    var roots := VisitDecls(program, false, None);
    hide FullKids, Errors, ErrorsOf, ComptimePosition, Accepted, IsComptimeType, CollectComptimeStructs;
    NoErrorsOf(structs, roots);
    forall p | p != [] && Path(p) && Root(program, p[0])
      ensures Offends(structs, End(p)) <==>
              || (End(p).node.E? && End(p).node.expr.Try? && ComptimePosition(p))
              || (End(p).node.T? && !Accepted(structs, End(p).node.ty, End(p).mode))
    {
      if !End(p).node.T? {
        ModeIs(p);
      }
    }
    forall v | v in roots ensures Errors(structs, v) == [] <==> forall p :: p != [] && Path(p) && p[0] == v ==>
      !Offends(structs, End(p)) {
      CleanIff(structs, v);
    }
  }

  // ----- modes -----

  /** What the walk of runtime code visits, the walk of the same code as comptime code visits as well. */
  ghost predicate Matched(a: seq<Visit>, b: seq<Visit>) {
    forall k :: k in a ==> k in b || (!k.mode && !k.node.T? && k.(mode := true) in b)
  }

  lemma {:induction false} ArmsMatched(arms: seq<Arm>, src: Option<Source>)
    ensures Matched(VisitArms(arms, false, src), VisitArms(arms, true, src))
  {
    if arms != [] {
      ArmsMatched(arms[1..], src);
      ExprsMatched(arms[0].guard, src);
    }
  }

  lemma ExprsMatched(es: seq<Expr>, src: Option<Source>)
    ensures Matched(VisitExprs(es, false, src), VisitExprs(es, true, src))
  {
    var a, b := VisitExprs(es, false, src), VisitExprs(es, true, src);
    forall k | k in a ensures !k.mode && !k.node.T? && k.(mode := true) in b {
      var i :| 0 <= i < |a| && a[i] == k;
      assert b[i] == k.(mode := true);
    }
  }

  lemma StmtsMatched(ss: seq<Stmt>, src: Option<Source>)
    ensures Matched(VisitStmts(ss, false, src), VisitStmts(ss, true, src))
  {
    var a, b := VisitStmts(ss, false, src), VisitStmts(ss, true, src);
    forall k | k in a ensures !k.mode && !k.node.T? && k.(mode := true) in b {
      var i :| 0 <= i < |a| && a[i] == k;
      assert b[i] == k.(mode := true);
    }
  }

  lemma DeclsMatched(ds: seq<Decl>, src: Option<Source>)
    ensures Matched(VisitDecls(ds, false, src), VisitDecls(ds, true, src))
  {
    var a, b := VisitDecls(ds, false, src), VisitDecls(ds, true, src);
    forall k | k in a ensures !k.mode && !k.node.T? && k.(mode := true) in b {
      var i :| 0 <= i < |a| && a[i] == k;
      assert b[i] == k.(mode := true);
    }
  }

  lemma InBlockMatched(ss: seq<Stmt>, t: Opt<Expr>, src: Option<Source>)
    ensures Matched(InBlock(ss, t, false, src), InBlock(ss, t, true, src))
  {
    StmtsMatched(ss, src);
    ExprsMatched(t, src);
    hide VisitStmts, VisitExprs, Smaller, Uniform;
  }

  lemma OneAndMatched(e: Expr, es: seq<Expr>, src: Option<Source>)
    ensures Matched(OneAnd(e, es, false, src), OneAnd(e, es, true, src))
  {
    ExprsMatched(es, src);
    hide VisitExprs, Smaller, Uniform;
  }

  lemma BranchesMatched(c: Expr, t: Stmt, f: Opt<Stmt>, src: Option<Source>)
    ensures Matched(Branches(c, t, f, false, src), Branches(c, t, f, true, src))
  {
    StmtsMatched(f, src);
    hide VisitStmts, Smaller, Uniform;
  }

  lemma InSwitchMatched(o: Expr, arms: seq<Arm>, src: Option<Source>)
    ensures Matched(InSwitch(o, arms, false, src), InSwitch(o, arms, true, src))
  {
    ArmsMatched(arms, src);
    hide VisitArms, Smaller, Uniform;
  }

  lemma BothMatched(a: seq<Visit>, b: seq<Visit>, a': seq<Visit>, b': seq<Visit>)
    requires Matched(a, a') && Matched(b, b')
    ensures Matched(a + b, a' + b')
  {
  }

  lemma TwoMatched(a: Expr, b: Expr, src: Option<Source>)
    ensures Matched(Two(a, b, false, src), Two(a, b, true, src))
    ensures Matched(One(a, false, src), One(a, true, src))
  {
    hide Smaller, Uniform;
    assert Two(a, b, true, src)[0] in Two(a, b, true, src) && Two(a, b, true, src)[1] in Two(a, b, true, src);
    assert One(a, true, src)[0] in One(a, true, src);
  }

  lemma SameMatched(vs: seq<Visit>)
    ensures Matched(vs, vs)
  {
  }

  lemma ExprMatched(e: Expr, src: Option<Source>)
    requires !e.Try?
    ensures Matched(ExprKids(e, false, src), ExprKids(e, true, src))
  {
    SameMatched(ExprKids(e, true, src));
    hide Smaller, Uniform, ExprSize, StmtSize, DeclSize, ExprsSize, StmtsSize, ArmsSize, VisitExprs, VisitStmts,
         VisitDecls, VisitArms,
         One, Two, OneAnd, Branches, InBlock, InSwitch, Matched;
    match e
    case Binary(l, r) => TwoMatched(l, r, src);
    case Unary(x) => TwoMatched(x, x, src);
    case Call(c, args) => OneAndMatched(c, args, src);
    case MacroCall(args) => ExprsMatched(args, src);
    case If(c, t, f) => BranchesMatched(c, t, f, src);
    case Switch(o, arms) => InSwitchMatched(o, arms, src);
    case FieldAccess(o, f) => TwoMatched(o, f, src);
    case SliceAccess(o, i) => TwoMatched(o, i, src);
    case StructInit(s, vs) => OneAndMatched(s, vs, src);
    case AnonymousStructInit(vs) => ExprsMatched(vs, src);
    case ArrayInit(vs) => ExprsMatched(vs, src);
    case ArrayRepeatInit(v, c) => TwoMatched(v, c, src);
    case Block(ss, t) => InBlockMatched(ss, t, src);
    case ConditionalExpr(x, f) => OneAndMatched(x, f, src);
    case Range(s, f) =>
      ExprsMatched(s, src);
      ExprsMatched(f, src);
      BothMatched(VisitExprs(s, false, src), VisitExprs(f, false, src), VisitExprs(s, true, src),
        VisitExprs(f, true, src));
    case SpliceExpr(x) => TwoMatched(x, x, src);
    case _ =>
  }

  lemma StmtMatched(s: Stmt, src: Option<Source>)
    ensures Matched(StmtKids(s, false, src), StmtKids(s, true, src))
  {
    hide Smaller, ExprSize, StmtSize, DeclSize, ExprsSize, StmtsSize, ArmsSize, VisitExprs, VisitStmts,
         VisitDecls, VisitArms;
    match s
    case Let(_, v) => ExprsMatched(v, src);
    case Return(v) => ExprsMatched(v, src);
    case While(_, u, _, f) =>
      StmtsMatched(u, src);
      StmtsMatched(f, src);
    case For(_, _, f) => StmtsMatched(f, src);
    case ConditionalStmts(ss, f) =>
      StmtsMatched(ss, src);
      StmtsMatched(f, src);
    case _ =>
  }

  lemma DeclMatched(d: Decl)
    ensures Matched(DeclKids(d, false), DeclKids(d, true))
  {
    hide Smaller, ExprSize, StmtSize, DeclSize, ExprsSize, StmtsSize, ArmsSize, VisitExprs, VisitStmts,
         VisitDecls, VisitArms;
    match d.kind
    case FnDecl(_, _, _, body) => StmtsMatched(body, Some(d.src));
    case StructDecl(_, ms) => DeclsMatched(ms, Some(d.src));
    case EnumDecl(_, ms) => DeclsMatched(ms, Some(d.src));
    case InterfaceDecl(_, ms) => DeclsMatched(ms, Some(d.src));
    case ImplementDecl(_, _, ms) => DeclsMatched(ms, Some(d.src));
    case _ =>
  }

  /** Code that passes as comptime code passes as runtime code. */
  lemma {:induction false} ComptimeIsStricter(structs: set<string>, v: Visit)
    requires v.mode && !v.node.T? && Errors(structs, v) == []
    ensures Errors(structs, v.(mode := false)) == []
    decreases NodeSize(v.node)
  {
    hide Errors, ErrorsOf, DeclKids, StmtKids, ExprKids, TypeKids, NodeSize;
    var w := v.(mode := false);
    Unfold(structs, v);
    Unfold(structs, w);
    NoErrorsOf(structs, Kids(v));
    NoErrorsOf(structs, Kids(w));
    KidsMatched(structs, v);
    forall k | k in Kids(w) ensures Errors(structs, k) == [] {
      if k !in Kids(v) {
        assert k == k.(mode := true).(mode := false);
        ComptimeIsStricter(structs, k.(mode := true));
      }
    }
  }

  lemma KidsMatched(structs: set<string>, v: Visit)
    requires v.mode && !v.node.T? && Own(structs, v) == []
    ensures Matched(Kids(v.(mode := false)), Kids(v)) && Own(structs, v.(mode := false)) == []
  {
    hide DeclKids, StmtKids, ExprKids, TypeKids;
    match v.node
    case D(d) => DeclMatched(d);
    case S(s) => StmtMatched(s, v.src);
    case E(e) => ExprMatched(e, v.src);
    case T(_) =>
  }

  // ----- suggestions -----

  /** The type that a report suggests is itself accepted, whatever comptime structs there are. */
  lemma SuggestionAccepted(structs: set<string>, t: TypeExpr, allowVoid: bool, src: Option<Source>)
    requires MessageFor(t, allowVoid).UseInstead?
    ensures Errors(structs, Visit(T(Named(MessageFor(t, allowVoid).name, false, [])), allowVoid, src)) == []
  {
    var v := Visit(T(Named(MessageFor(t, allowVoid).name, false, [])), allowVoid, src);
    hide Errors, ErrorsOf;
    Unfold(structs, v);
    NoKids(structs);
  }
}
