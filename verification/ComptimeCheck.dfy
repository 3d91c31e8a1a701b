/**
 The comptime validator: a checker that walks a program with a current source and a list of errors, both
 updated in place.
 */
module ComptimeCheck {
  import opened ComptimeAst
  import opened ComptimeSpec
  import opened Wrappers

  /** What a comptime signature and body report. */
  lemma FnErrors(structs: set<string>, ps: seq<TypeExpr>, ret: Opt<TypeExpr>, body: Opt<Stmt>, src: Option<Source>,
      before: seq<Error>)
    ensures before + ErrorsOf(structs, VisitFn(ps, ret, body, src)) ==
            before + ErrorsOf(structs, VisitTypes(ps, false, src)) + ErrorsOf(structs, VisitTypes(ret, true, src)) +
              ErrorsOf(structs, VisitStmts(body, true, src))
  {
    hide ErrorsOf;
    ErrorsOfAppend(structs, VisitTypes(ps, false, src) + VisitTypes(ret, true, src), VisitStmts(body, true, src));
    ErrorsOfAppend(structs, VisitTypes(ps, false, src), VisitTypes(ret, true, src));
  }

  lemma MethodErrors(structs: set<string>, ms: seq<Decl>, i: nat, src: Option<Source>, before: seq<Error>)
    requires i < |ms|
    ensures before + ErrorsOf(structs, VisitMethods(ms[i..], src)) ==
            before + ErrorsOf(structs, VisitMethod(ms[i], src)) + ErrorsOf(structs, VisitMethods(ms[i + 1..], src))
  {
    hide ErrorsOf, VisitMethod;
    assert ms[i..][1..] == ms[i + 1..];
    ErrorsOfAppend(structs, VisitMethod(ms[i], src), VisitMethods(ms[i + 1..], src));
  }

  lemma ParameterErrors(structs: set<string>, params: seq<TypeExpr>, i: nat, src: Option<Source>, before: seq<Error>)
    requires i < |params|
    ensures before + ErrorsOf(structs, VisitTypes(NotSelf(params[i..]), false, src)) ==
            (if IsSelfReceiver(params[i]) then before else before + Errors(structs, Visit(T(params[i]), false, src)))
            + ErrorsOf(structs, VisitTypes(NotSelf(params[i + 1..]), false, src))
  {
    hide *;
    NotSelfStep(params, i);
    assert [] + NotSelf(params[i + 1..]) == NotSelf(params[i + 1..]);
    if !IsSelfReceiver(params[i]) {
      TypesStep(params[i], NotSelf(params[i + 1..]), src);
      FirstErrors(structs, Visit(T(params[i]), false, src), VisitTypes(NotSelf(params[i + 1..]), false, src));
    }
  }

  lemma NotSelfStep(params: seq<TypeExpr>, i: nat)
    requires i < |params|
    ensures NotSelf(params[i..]) == (if IsSelfReceiver(params[i]) then [] else [params[i]]) + NotSelf(params[i + 1..])
  {
    assert params[i..][1..] == params[i + 1..];
  }

  lemma TypesStep(t: TypeExpr, ts: seq<TypeExpr>, src: Option<Source>)
    ensures VisitTypes([t] + ts, false, src) == [Visit(T(t), false, src)] + VisitTypes(ts, false, src)
  {
    hide Smaller, TypesSize;
  }

  lemma FirstErrors(structs: set<string>, v: Visit, vs: seq<Visit>)
    ensures ErrorsOf(structs, [v] + vs) == Errors(structs, v) + ErrorsOf(structs, vs)
  {
    hide ErrorsOf;
    ErrorsOfAppend(structs, [v], vs);
    ErrorsOfOne(structs, v);
  }

  /** A visit that makes no visits and reports nothing. */
  lemma Quiet(structs: set<string>, v: Visit, before: seq<Error>)
    requires Own(structs, v) == [] && Kids(v) == []
    ensures before + Errors(structs, v) == before
  {
    Unfold(structs, v);
    hide *;
    NoKids(structs);
  }

  lemma Passes(structs: set<string>, v: Visit, kids: seq<Visit>, before: seq<Error>)
    requires Own(structs, v) == [] && Kids(v) == kids
    ensures before + Errors(structs, v) == before + ErrorsOf(structs, kids)
  {
    hide *;
    Unfold(structs, v);
    assert [] + ErrorsOf(structs, kids) == ErrorsOf(structs, kids);
  }

  lemma PassesOne(structs: set<string>, v: Visit, kid: Visit, before: seq<Error>)
    requires Own(structs, v) == [] && Kids(v) == [kid]
    ensures before + Errors(structs, v) == before + Errors(structs, kid)
  {
    hide *;
    Passes(structs, v, [kid], before);
    ErrorsOfOne(structs, kid);
  }

  lemma PassesTwo(structs: set<string>, v: Visit, a: Visit, b: Visit, before: seq<Error>)
    requires Own(structs, v) == [] && Kids(v) == [a, b]
    ensures before + Errors(structs, v) == before + Errors(structs, a) + Errors(structs, b)
  {
    hide *;
    assert [a, b] == [a] + [b];
    PassesFirst(structs, v, a, [b], before);
    ErrorsOfOne(structs, b);
  }

  lemma PassesFirst(structs: set<string>, v: Visit, a: Visit, rest: seq<Visit>, before: seq<Error>)
    requires Own(structs, v) == [] && Kids(v) == [a] + rest
    ensures before + Errors(structs, v) == before + Errors(structs, a) + ErrorsOf(structs, rest)
  {
    hide *;
    PassesBoth(structs, v, [a], rest, before);
    ErrorsOfOne(structs, a);
  }

  lemma PassesBoth(structs: set<string>, v: Visit, a: seq<Visit>, b: seq<Visit>, before: seq<Error>)
    requires Own(structs, v) == [] && Kids(v) == a + b
    ensures before + Errors(structs, v) == before + ErrorsOf(structs, a) + ErrorsOf(structs, b)
  {
    hide *;
    Passes(structs, v, a + b, before);
    ErrorsOfAppend(structs, a, b);
  }

  lemma PassesThree(structs: set<string>, v: Visit, a: Visit, b: Visit, rest: seq<Visit>, before: seq<Error>)
    requires Own(structs, v) == [] && Kids(v) == [a, b] + rest
    ensures before + Errors(structs, v) == before + Errors(structs, a) + Errors(structs, b) + ErrorsOf(structs, rest)
  {
    hide *;
    assert [a, b] + rest == [a] + ([b] + rest);
    PassesFirst(structs, v, a, [b] + rest, before);
    FirstErrors(structs, b, rest);
  }

  lemma PassesLoop(structs: set<string>, v: Visit, a: Visit, us: seq<Visit>, b: Visit, rest: seq<Visit>,
      before: seq<Error>)
    requires Own(structs, v) == [] && Kids(v) == [a] + us + [b] + rest
    ensures before + Errors(structs, v) ==
              before + Errors(structs, a) + ErrorsOf(structs, us) + Errors(structs, b) + ErrorsOf(structs, rest)
  {
    hide *;
    assert [a] + us + [b] + rest == [a] + (us + ([b] + rest));
    PassesFirst(structs, v, a, us + ([b] + rest), before);
    ErrorsOfAppend(structs, us, [b] + rest);
    FirstErrors(structs, b, rest);
  }

  lemma ArmErrors(structs: set<string>, arms: seq<Arm>, i: nat, mode: bool, src: Option<Source>, before: seq<Error>)
    requires i < |arms|
    ensures before + ErrorsOf(structs, VisitArms(arms[i..], mode, src)) ==
            before + ErrorsOf(structs, VisitExprs(arms[i].guard, mode, src)) +
              Errors(structs, Visit(E(arms[i].body), mode, src))
            + ErrorsOf(structs, VisitArms(arms[i + 1..], mode, src))
  {
    hide *;
    ArmsStep(arms, i, mode, src);
    var g, y, rest := VisitExprs(arms[i].guard, mode, src), Visit(E(arms[i].body), mode, src),
      VisitArms(arms[i + 1..], mode, src);
    assert g + [y] + rest == g + ([y] + rest);
    ErrorsOfAppend(structs, g, [y] + rest);
    FirstErrors(structs, y, rest);
  }

  lemma ArmsStep(arms: seq<Arm>, i: nat, mode: bool, src: Option<Source>)
    requires i < |arms|
    ensures VisitArms(arms[i..], mode, src) ==
            VisitExprs(arms[i].guard, mode, src) + [Visit(E(arms[i].body), mode, src)] +
              VisitArms(arms[i + 1..], mode, src)
  {
    hide Smaller, Uniform, VisitExprs;
    assert arms[i..][1..] == arms[i + 1..];
  }

  lemma NextError(structs: set<string>, vs: seq<Visit>, i: nat)
    requires i < |vs|
    ensures ErrorsOf(structs, vs[i..]) == Errors(structs, vs[i]) + ErrorsOf(structs, vs[i + 1..])
  {
    assert vs[i..][1..] == vs[i + 1..];
  }

  class Checker {
    var src: Option<Source>
    const structs: set<string>
    var errors: seq<Error>

    constructor (structs: set<string>)
      ensures this.structs == structs && src == None && errors == []
    {
      this.structs := structs;
      src := None;
      errors := [];
    }

    method Declaration(d: Decl, comptime: bool)
      modifies this
      ensures src == old(src)
      ensures errors == old(errors) + Errors(structs, Visit(D(d), comptime, src))
      decreases d
    {
      hide ErrorsOf, Errors, Smaller, TypeSize, TypesSize, ExprSize, ExprsSize, ArmsSize, StmtSize, StmtsSize, DeclSize,
           DeclsSize, NodeSize,
           VisitDecls, VisitStmts, VisitExprs, VisitTypes, VisitArms, VisitMethods, VisitFn;
      var previous := src;
      src := Some(d.src);
      ghost var v := Visit(D(d), comptime, previous);
      match d.kind {
        case ComptimeFn(params, ret, body) =>
          Passes(structs, v, VisitFn(params, ret, body, src), errors);
          FnErrors(structs, params, ret, body, src, errors);
          Types(params, false);
          Types(ret, true);
          Statements(body, true);
        case ComptimeConst(value) =>
          PassesOne(structs, v, Visit(E(value), true, src), errors);
          Expression(value, true);
        case ComptimeBlock(stmts) =>
          Passes(structs, v, VisitStmts(stmts, true, src), errors);
          Statements(stmts, true);
        case ComptimeStruct(_, fields, methods) =>
          PassesBoth(structs, v, VisitTypes(fields, false, src), VisitMethods(methods, src), errors);
          Types(fields, false);
          Methods(methods);
        case FnDecl(_, _, _, body) =>
          Passes(structs, v, VisitStmts(body, comptime, src), errors);
          Statements(body, comptime);
        case StructDecl(_, methods) =>
          Passes(structs, v, VisitDecls(methods, comptime, src), errors);
          Declarations(methods, comptime);
        case EnumDecl(_, methods) =>
          Passes(structs, v, VisitDecls(methods, comptime, src), errors);
          Declarations(methods, comptime);
        case InterfaceDecl(_, methods) =>
          Passes(structs, v, VisitDecls(methods, comptime, src), errors);
          Declarations(methods, comptime);
        case ImplementDecl(_, _, methods) =>
          Passes(structs, v, VisitDecls(methods, comptime, src), errors);
          Declarations(methods, comptime);
        case GlobalVar(_, value) =>
          PassesOne(structs, v, Visit(E(value), comptime, src), errors);
          Expression(value, comptime);
        case _ =>
          Quiet(structs, v, errors);
      }
      src := previous;
    }

    /** The methods of a comptime struct, whose errors keep the source of the struct. */
    method Methods(methods: seq<Decl>)
      modifies this
      ensures src == old(src)
      ensures errors == old(errors) + ErrorsOf(structs, VisitMethods(methods, src))
      decreases methods
    {
      hide ErrorsOf, Errors, Smaller, TypeSize, TypesSize, ExprSize, ExprsSize, ArmsSize, StmtSize, StmtsSize, DeclSize,
           DeclsSize, NodeSize,
           VisitDecls, VisitStmts, VisitExprs, VisitTypes, VisitArms, VisitMethods, VisitMethod, NotSelf;
      assert methods[0..] == methods && methods[|methods|..] == [];
      for i := 0 to |methods|
        invariant src == old(src)
        invariant errors + ErrorsOf(structs, VisitMethods(methods[i..], src)) ==
                    old(errors) + ErrorsOf(structs, VisitMethods(methods, src))
      {
        MethodErrors(structs, methods, i, src, errors);
        Method(methods[i]);
      }
      NoMore(structs, false, src, errors);
    }

    method Method(m: Decl)
      modifies this
      ensures src == old(src)
      ensures errors == old(errors) + ErrorsOf(structs, VisitMethod(m, src))
      decreases m
    {
      hide ErrorsOf, Errors, Smaller, TypeSize, TypesSize, ExprSize, ExprsSize, ArmsSize, StmtSize, StmtsSize, DeclSize,
           DeclsSize, NodeSize,
           VisitDecls, VisitStmts, VisitExprs, VisitTypes, VisitArms, VisitFn, NotSelf;
      match m.kind
      case FnDecl(params, ret, _, body) =>
        FnErrors(structs, NotSelf(params), ret, body, src, errors);
        Parameters(params);
        Types(ret, true);
        Statements(body, true);
      case _ =>
        NoMore(structs, true, src, errors);
    }

    method Parameters(params: seq<TypeExpr>)
      modifies this
      ensures src == old(src)
      ensures errors == old(errors) + ErrorsOf(structs, VisitTypes(NotSelf(params), false, src))
      decreases params
    {
      hide ErrorsOf, Errors, Smaller, TypeSize, TypesSize, ExprSize, ExprsSize, ArmsSize, StmtSize, StmtsSize, DeclSize,
           DeclsSize, NodeSize,
           VisitDecls, VisitStmts, VisitExprs, VisitTypes, VisitArms, VisitMethods, VisitMethod, NotSelf;
      assert params[0..] == params && params[|params|..] == [];
      for i := 0 to |params|
        invariant src == old(src)
        invariant errors + ErrorsOf(structs, VisitTypes(NotSelf(params[i..]), false, src)) ==
                    old(errors) + ErrorsOf(structs, VisitTypes(NotSelf(params), false, src))
      {
        ParameterErrors(structs, params, i, src, errors);
        if IsSelfReceiver(params[i]) {
          continue;
        }
        CheckType(params[i], false);
      }
      NoMore(structs, false, src, errors);
    }

    method Statement(s: Stmt, comptime: bool)
      modifies this
      ensures src == old(src)
      ensures errors == old(errors) + Errors(structs, Visit(S(s), comptime, src))
      decreases s
    {
      hide ErrorsOf, Errors, Smaller, TypeSize, TypesSize, ExprSize, ExprsSize, ArmsSize, StmtSize, StmtsSize, DeclSize,
           DeclsSize, NodeSize,
           VisitDecls, VisitStmts, VisitExprs, VisitTypes, VisitArms, VisitMethods;
      ghost var v := Visit(S(s), comptime, src);
      match s
      case Let(explicit, init) =>
        PassesBoth(structs, v, if comptime then VisitTypes(explicit, false, src) else [],
          VisitExprs(init, comptime, src), errors);
        if comptime {
          Types(explicit, false);
        } else {
          NoKids(structs);
          assert errors + [] == errors;
        }
        Expressions(init, comptime);
      case Assign(target, value) =>
        PassesTwo(structs, v, Visit(E(target), comptime, src), Visit(E(value), comptime, src), errors);
        Expression(target, comptime);
        Expression(value, comptime);
      case CompoundAssign(target, value) =>
        PassesTwo(structs, v, Visit(E(target), comptime, src), Visit(E(value), comptime, src), errors);
        Expression(target, comptime);
        Expression(value, comptime);
      case Return(result) =>
        Passes(structs, v, VisitExprs(result, comptime, src), errors);
        Expressions(result, comptime);
      case While(condition, update, block, elseBlock) =>
        PassesLoop(structs, v, Visit(E(condition), comptime, src), VisitStmts(update, comptime, src),
                   Visit(S(block), comptime, src), VisitStmts(elseBlock, comptime, src), errors);
        Expression(condition, comptime);
        Statements(update, comptime);
        Statement(block, comptime);
        Statements(elseBlock, comptime);
      case For(iterated, block, elseBlock) =>
        PassesThree(structs, v, Visit(E(iterated), comptime, src), Visit(S(block), comptime, src),
          VisitStmts(elseBlock, comptime, src), errors);
        Expression(iterated, comptime);
        Statement(block, comptime);
        Statements(elseBlock, comptime);
      case ExprStmt(expr) =>
        PassesOne(structs, v, Visit(E(expr), comptime, src), errors);
        Expression(expr, comptime);
      case TrailingExpr(expr) =>
        PassesOne(structs, v, Visit(E(expr), comptime, src), errors);
        Expression(expr, comptime);
      case NestedFn(decl) =>
        PassesOne(structs, v, Visit(D(decl), false, src), errors);
        Declaration(decl, false);
      case ConditionalStmts(stmts, elseBlock) =>
        PassesBoth(structs, v, VisitStmts(stmts, comptime, src), VisitStmts(elseBlock, comptime, src), errors);
        Statements(stmts, comptime);
        Statements(elseBlock, comptime);
      case Break =>
        Quiet(structs, v, errors);
      case Continue =>
        Quiet(structs, v, errors);
    }

    method Expression(e: Expr, comptime: bool)
      modifies this
      ensures src == old(src)
      ensures errors == old(errors) + Errors(structs, Visit(E(e), comptime, src))
      decreases e
    {
      hide ErrorsOf, Errors, Smaller, TypeSize, TypesSize, ExprSize, ExprsSize, ArmsSize, StmtSize, StmtsSize, DeclSize,
           DeclsSize, NodeSize,
           VisitDecls, VisitStmts, VisitExprs, VisitTypes, VisitArms, VisitMethods;
      ghost var v := Visit(E(e), comptime, src);
      match e
      case DeclExpr(decl) =>
        PassesOne(structs, v, Visit(D(decl), true, src), errors);
        Declaration(decl, true);
      case Binary(lhs, rhs) =>
        PassesTwo(structs, v, Visit(E(lhs), comptime, src), Visit(E(rhs), comptime, src), errors);
        Expression(lhs, comptime);
        Expression(rhs, comptime);
      case Unary(operand) =>
        PassesOne(structs, v, Visit(E(operand), comptime, src), errors);
        Expression(operand, comptime);
      case Call(callee, args) =>
        PassesFirst(structs, v, Visit(E(callee), comptime, src), VisitExprs(args, comptime, src), errors);
        Expression(callee, comptime);
        Expressions(args, comptime);
      case MacroCall(args) =>
        Passes(structs, v, VisitExprs(args, comptime, src), errors);
        Expressions(args, comptime);
      case If(condition, thenBlock, elseStmt) =>
        PassesThree(structs, v, Visit(E(condition), comptime, src), Visit(S(thenBlock), comptime, src),
          VisitStmts(elseStmt, comptime, src), errors);
        Expression(condition, comptime);
        Statement(thenBlock, comptime);
        Statements(elseStmt, comptime);
      case Switch(target, arms) =>
        PassesFirst(structs, v, Visit(E(target), comptime, src), VisitArms(arms, comptime, src), errors);
        Expression(target, comptime);
        Arms(arms, comptime);
      case FieldAccess(target, field) =>
        PassesTwo(structs, v, Visit(E(target), comptime, src), Visit(E(field), comptime, src), errors);
        Expression(target, comptime);
        Expression(field, comptime);
      case SliceAccess(target, index) =>
        PassesTwo(structs, v, Visit(E(target), comptime, src), Visit(E(index), comptime, src), errors);
        Expression(target, comptime);
        Expression(index, comptime);
      case StructInit(struct, values) =>
        PassesFirst(structs, v, Visit(E(struct), comptime, src), VisitExprs(values, comptime, src), errors);
        Expression(struct, comptime);
        Expressions(values, comptime);
      case AnonymousStructInit(values) =>
        Passes(structs, v, VisitExprs(values, comptime, src), errors);
        Expressions(values, comptime);
      case ArrayInit(values) =>
        Passes(structs, v, VisitExprs(values, comptime, src), errors);
        Expressions(values, comptime);
      case ArrayRepeatInit(value, count) =>
        PassesTwo(structs, v, Visit(E(value), comptime, src), Visit(E(count), comptime, src), errors);
        Expression(value, comptime);
        Expression(count, comptime);
      case Block(stmts, trailing) =>
        PassesBoth(structs, v, VisitStmts(stmts, comptime, src), VisitExprs(trailing, comptime, src), errors);
        Statements(stmts, comptime);
        Expressions(trailing, comptime);
      case Closure(_, _, body) =>
        PassesOne(structs, v, Visit(S(body), false, src), errors);
        Statement(body, false);
      case ConditionalExpr(guarded, elseExpr) =>
        PassesFirst(structs, v, Visit(E(guarded), comptime, src), VisitExprs(elseExpr, comptime, src), errors);
        Expression(guarded, comptime);
        Expressions(elseExpr, comptime);
      case Range(start, end) =>
        PassesBoth(structs, v, VisitExprs(start, comptime, src), VisitExprs(end, comptime, src), errors);
        Expressions(start, comptime);
        Expressions(end, comptime);
      case SpliceExpr(operand) =>
        PassesOne(structs, v, Visit(E(operand), comptime, src), errors);
        Expression(operand, comptime);
      case Try(operand) =>
        if comptime {
          Unfold(structs, v);
          NoKids(structs);
          errors := errors + [Unsupported(src, operand)];
        } else {
          PassesOne(structs, v, Visit(E(operand), comptime, src), errors);
          Expression(operand, comptime);
        }
      case ComptimeExpr(stmts, trailing) =>
        PassesBoth(structs, v, VisitStmts(stmts, true, src), VisitExprs(trailing, true, src), errors);
        Statements(stmts, true);
        Expressions(trailing, true);
      case _ =>
        Quiet(structs, v, errors);
    }

    method Arms(arms: seq<Arm>, comptime: bool)
      modifies this
      ensures src == old(src)
      ensures errors == old(errors) + ErrorsOf(structs, VisitArms(arms, comptime, src))
      decreases arms
    {
      hide ErrorsOf, Errors, Smaller, TypeSize, TypesSize, ExprSize, ExprsSize, ArmsSize, StmtSize, StmtsSize, DeclSize,
           DeclsSize, NodeSize,
           VisitDecls, VisitStmts, VisitExprs, VisitTypes, VisitArms, VisitMethods, VisitMethod, NotSelf;
      assert arms[0..] == arms && arms[|arms|..] == [];
      for i := 0 to |arms|
        invariant src == old(src)
        invariant errors + ErrorsOf(structs, VisitArms(arms[i..], comptime, src)) ==
                    old(errors) + ErrorsOf(structs, VisitArms(arms, comptime, src))
      {
        ArmErrors(structs, arms, i, comptime, src, errors);
        Expressions(arms[i].guard, comptime);
        Expression(arms[i].body, comptime);
      }
      NoMore(structs, comptime, src, errors);
    }

    method CheckType(t: TypeExpr, allowVoid: bool)
      modifies this
      ensures src == old(src)
      ensures errors == old(errors) + Errors(structs, Visit(T(t), allowVoid, src))
      decreases t
    {
      hide ErrorsOf, Errors;
      Unfold(structs, Visit(T(t), allowVoid, src));
      NoKids(structs);
      if t == Builtin(BVoid) && allowVoid {
      } else if t.SelfType? || t.SelfAlias? {
      } else if t.Const? {
        ErrorsOfOne(structs, Visit(T(t.inner), false, src));
        CheckType(t.inner, false);
      } else if t.Splice? || t.ComptimeCall? {
        ErrorsOfOne(structs, Visit(E(t.expr), true, src));
        Expression(t.expr, true);
      } else if t.Named? && !t.generic && IsComptimeType(structs, t.name) {
      } else if t.Array? && t.len != [] {
        ErrorsOfOne(structs, Visit(T(t.element), false, src));
        CheckType(t.element, false);
      } else {
        Report(t, allowVoid);
      }
    }

    /** Reports a rejected type: a void outside a return type is called that, a type with a comptime
        counterpart is answered by naming it, anything else is not allowed. */
    method Report(t: TypeExpr, allowVoid: bool)
      requires !Accepted(structs, t, allowVoid)
      modifies this
      ensures src == old(src)
      ensures |errors| == |old(errors)| + 1 && errors[..|old(errors)|] == old(errors)
      ensures var e := errors[|old(errors)|];
              && e == RuntimeType(src, t, MessageFor(t, allowVoid))
              && (e.message.OnlyAsReturnType? <==> Accepted(structs, t, !allowVoid))
              && (e.message.UseInstead? ==> forall ss :: Accepted(ss, Named(e.message.name, false, []), allowVoid))
              && (e.message.NotAllowed? <==> !Accepted(structs, t, !allowVoid) && Alternative(t).None?)
    {
      var message: Message;
      if t == Builtin(BVoid) && !allowVoid {
        message := OnlyAsReturnType;
      } else {
        var name := Alternative(t);
        match name {
          case Some(n) => message := UseInstead(n);
          case None => message := NotAllowed;
        }
      }
      errors := errors + [RuntimeType(src, t, message)];
    }

    // ----- loops over parts of one kind, optional parts among them -----

    method Declarations(ds: seq<Decl>, comptime: bool)
      modifies this
      ensures src == old(src)
      ensures errors == old(errors) + ErrorsOf(structs, VisitDecls(ds, comptime, src))
      decreases ds
    {
      hide Errors, ErrorsOf;
      ghost var vs := VisitDecls(ds, comptime, src);
      assert vs[0..] == vs && vs[|ds|..] == [];
      for i := 0 to |ds|
        invariant src == old(src)
        invariant errors + ErrorsOf(structs, vs[i..]) == old(errors) + ErrorsOf(structs, vs)
      {
        NextError(structs, vs, i);
        Declaration(ds[i], comptime);
      }
      NoKids(structs);
    }

    method Statements(ss: seq<Stmt>, comptime: bool)
      modifies this
      ensures src == old(src)
      ensures errors == old(errors) + ErrorsOf(structs, VisitStmts(ss, comptime, src))
      decreases ss
    {
      hide Errors, ErrorsOf;
      ghost var vs := VisitStmts(ss, comptime, src);
      assert vs[0..] == vs && vs[|ss|..] == [];
      for i := 0 to |ss|
        invariant src == old(src)
        invariant errors + ErrorsOf(structs, vs[i..]) == old(errors) + ErrorsOf(structs, vs)
      {
        NextError(structs, vs, i);
        Statement(ss[i], comptime);
      }
      NoKids(structs);
    }

    method Expressions(es: seq<Expr>, comptime: bool)
      modifies this
      ensures src == old(src)
      ensures errors == old(errors) + ErrorsOf(structs, VisitExprs(es, comptime, src))
      decreases es
    {
      hide Errors, ErrorsOf;
      ghost var vs := VisitExprs(es, comptime, src);
      assert vs[0..] == vs && vs[|es|..] == [];
      for i := 0 to |es|
        invariant src == old(src)
        invariant errors + ErrorsOf(structs, vs[i..]) == old(errors) + ErrorsOf(structs, vs)
      {
        NextError(structs, vs, i);
        Expression(es[i], comptime);
      }
      NoKids(structs);
    }

    method Types(ts: seq<TypeExpr>, allowVoid: bool)
      modifies this
      ensures src == old(src)
      ensures errors == old(errors) + ErrorsOf(structs, VisitTypes(ts, allowVoid, src))
      decreases ts
    {
      hide Errors, ErrorsOf;
      ghost var vs := VisitTypes(ts, allowVoid, src);
      assert vs[0..] == vs && vs[|ts|..] == [];
      for i := 0 to |ts|
        invariant src == old(src)
        invariant errors + ErrorsOf(structs, vs[i..]) == old(errors) + ErrorsOf(structs, vs)
      {
        NextError(structs, vs, i);
        CheckType(ts[i], allowVoid);
      }
      NoKids(structs);
    }
  }

  lemma NoKids(structs: set<string>)
    ensures ErrorsOf(structs, []) == []
  {
  }

  lemma NoMore(structs: set<string>, mode: bool, src: Option<Source>, before: seq<Error>)
    ensures before + ErrorsOf(structs, VisitMethods([], src)) == before
    ensures before + ErrorsOf(structs, VisitTypes(NotSelf([]), mode, src)) == before
    ensures before + ErrorsOf(structs, VisitArms([], mode, src)) == before
    ensures before + ErrorsOf(structs, []) == before
  {
  }

  /** The comptime structs of the program's top level. */
  function CollectComptimeStructs(program: seq<Decl>): set<string> {
    set i | 0 <= i < |program| && program[i].kind.ComptimeStruct? :: program[i].kind.name
  }

  method ValidateProgram(program: seq<Decl>) returns (errors: seq<Error>)
    ensures errors == ErrorsOf(CollectComptimeStructs(program), VisitDecls(program, false, None))
  {
    var checker := new Checker(CollectComptimeStructs(program));
    checker.Declarations(program, false);
    errors := checker.errors;
  }
}
