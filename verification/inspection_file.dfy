/** The whole-file driver of the function-contract checker: which
    function-like nodes of a file get the five checks, and in what order. */
module FileInspection {
  import opened GoSyntax
  import opened FunctionInspection

  /** A top-level declaration: a function, a method, or anything else
      (const, var, type, import), with the expressions it holds. */
  datatype TopDecl =
    | TopFunction(fn: Function)
    | TopMethod(fn: Function)
    | OtherDecl(exprs: seq<Expr>)

  /** The problems of a list of functions, checked one after another. */
  function CheckAll(fns: seq<Function>, count: ResultCounter): seq<Problem> {
    if fns == [] then [] else CheckFunction(fns[0], count) + CheckAll(fns[1..], count)
  }

  lemma CheckOne(fn: Function, count: ResultCounter)
    ensures CheckAll([fn], count) == CheckFunction(fn, count)
  {
    assert [fn][1..] == [];
  }

  lemma {:induction false} CheckAllAppend(a: seq<Function>, b: seq<Function>, count: ResultCounter)
    ensures CheckAll(a + b, count) == CheckAll(a, count) + CheckAll(b, count)
  {
    if a == [] {
      assert a + b == b;
    } else {
      assert (a + b)[1..] == a[1..] + b;
      CheckAllAppend(a[1..], b, count);
    }
  }

  // ---------------------------------------------------------------------
  // Reference: every function-like node of the file, in pre-order
  // ---------------------------------------------------------------------

  /** The function literals inside an expression, each followed by the
      literals nested in its own body. */
  function LiteralsInExpr(e: Expr): seq<Function>
    decreases e, 1
  {
    match e
    case FunctionLit(g) => [g] + LiteralsInFunction(g)
    case BuiltinCall(_, args) => LiteralsInExprs(args)
    case OtherExpr(_, children) => LiteralsInExprs(children)
  }

  function LiteralsInExprs(es: seq<Expr>): seq<Function>
    decreases es, 0
  {
    if es == [] then [] else LiteralsInExpr(es[0]) + LiteralsInExprs(es[1..])
  }

  function LiteralsInStmt(s: Stmt): seq<Function>
    decreases s, 1
  {
    match s
    case ReturnStmt(_, es) => LiteralsInExprs(es)
    case LabeledStmt(None) => []
    case LabeledStmt(Some(t)) => LiteralsInStmt(t)
    case ExprStmt(e) => LiteralsInExpr(e)
    case BlockStmt(b) => LiteralsInStmts(b.stmts)
    case OtherStmt(es, ss) => LiteralsInExprs(es) + LiteralsInStmts(ss)
  }

  function LiteralsInStmts(ss: seq<Stmt>): seq<Function>
    decreases ss, 0
  {
    if ss == [] then [] else LiteralsInStmt(ss[0]) + LiteralsInStmts(ss[1..])
  }

  /** The literals in a function's body (its signature holds none). */
  function LiteralsInFunction(fn: Function): seq<Function>
    decreases fn, 0
  {
    if fn.body.Some? then LiteralsInStmts(fn.body.value.stmts) else []
  }

  /** Every function, method and function literal of the file, each
      before the literals nested in it. */
  function AllFunctions(decls: seq<TopDecl>): seq<Function> {
    if decls == [] then [] else FunctionsOf(decls[0]) + AllFunctions(decls[1..])
  }

  function FunctionsOf(d: TopDecl): seq<Function> {
    match d
    case TopFunction(fn) => [fn] + LiteralsInFunction(fn)
    case TopMethod(fn) => [fn] + LiteralsInFunction(fn)
    case OtherDecl(es) => LiteralsInExprs(es)
  }

  // ---------------------------------------------------------------------
  // The file visitor as written
  // ---------------------------------------------------------------------

  /** A literal nested in the body of a literal of `fns`. */
  ghost predicate NestedIn(g: Function, fns: seq<Function>) {
    exists h :: h in fns && g in LiteralsInFunction(h)
  }

  /** The literals the file visitor reaches in an expression: its
      function-literal callback does not continue into the literal, so it
      reaches exactly the literals that sit in no other literal. */
  function ShallowLiterals(e: Expr): (r: seq<Function>)
    ensures forall g :: g in LiteralsInExpr(e) <==> g in r || NestedIn(g, r)
    decreases e, 1
  {
    match e
    case FunctionLit(g) =>
      assert forall h :: h in [g] <==> h == g;
      [g]
    case BuiltinCall(_, args) => ShallowLiteralsIn(args)
    case OtherExpr(_, children) => ShallowLiteralsIn(children)
  }

  function ShallowLiteralsIn(es: seq<Expr>): (r: seq<Function>)
    ensures forall g :: g in LiteralsInExprs(es) <==> g in r || NestedIn(g, r)
    decreases es, 0
  {
    if es == [] then []
    else
      var a := ShallowLiterals(es[0]);
      var b := ShallowLiteralsIn(es[1..]);
      NestedInAppend(a, b);
      a + b
  }

  lemma NestedInAppend(a: seq<Function>, b: seq<Function>)
    ensures forall g :: NestedIn(g, a + b) <==> NestedIn(g, a) || NestedIn(g, b)
  {
    forall g | NestedIn(g, a + b) ensures NestedIn(g, a) || NestedIn(g, b) {
      var h :| h in a + b && g in LiteralsInFunction(h);
      if h in a {
        assert NestedIn(g, a);
      } else {
        assert NestedIn(g, b);
      }
    }
    forall g | NestedIn(g, a) || NestedIn(g, b) ensures NestedIn(g, a + b) {
      if NestedIn(g, a) {
        var h :| h in a && g in LiteralsInFunction(h);
        assert h in a + b;
      } else {
        var h :| h in b && g in LiteralsInFunction(h);
        assert h in a + b;
      }
    }
  }

  /** The function-like nodes the file visitor checks: its callbacks for
      function and method declarations and for function literals check the
      node and do not descend. So it checks every top-level function and
      method and every literal outside a function-like node, and nothing
      nested in a body. */
  function VisitedAsWritten(decls: seq<TopDecl>): (r: seq<Function>)
    ensures forall g :: g in AllFunctions(decls) <==> g in r || NestedIn(g, r)
    ensures forall i :: 0 <= i < |decls| && !decls[i].OtherDecl? ==> decls[i].fn in r
  {
    if decls == [] then []
    else
      var a := VisitedIn(decls[0]);
      var b := VisitedAsWritten(decls[1..]);
      NestedInAppend(a, b);
      assert forall i :: 1 <= i < |decls| ==> decls[i] == decls[1..][i - 1];
      a + b
  }

  function VisitedIn(d: TopDecl): (r: seq<Function>)
    ensures forall g :: g in FunctionsOf(d) <==> g in r || NestedIn(g, r)
    ensures !d.OtherDecl? ==> d.fn in r
  {
    match d
    case TopFunction(fn) =>
      assert forall h :: h in [fn] <==> h == fn;
      [fn]
    case TopMethod(fn) =>
      assert forall h :: h in [fn] <==> h == fn;
      [fn]
    case OtherDecl(es) => ShallowLiteralsIn(es)
  }

  /** `doCheckFile` as written: the five checks on each node the visitor
      stops at, in visiting order. */
  function CheckFileAsWritten(decls: seq<TopDecl>, count: ResultCounter): seq<Problem> {
    CheckAll(VisitedAsWritten(decls), count)
  }

  lemma {:induction false} VisitedAsWrittenAppend(a: seq<TopDecl>, b: seq<TopDecl>)
    ensures VisitedAsWritten(a + b) == VisitedAsWritten(a) + VisitedAsWritten(b)
  {
    if a == [] {
      assert a + b == b;
    } else {
      assert (a + b)[1..] == a[1..] + b;
      VisitedAsWrittenAppend(a[1..], b);
    }
  }

  /** Every top-level function and method is checked, in file order: the
      file's problems are those of the declarations before it, then its
      five checks, then those of the declarations after it. */
  lemma DeclarationIsChecked(decls: seq<TopDecl>, i: nat, count: ResultCounter)
    requires i < |decls| && !decls[i].OtherDecl?
    ensures CheckFileAsWritten(decls, count)
      == CheckFileAsWritten(decls[..i], count) + (CheckFunction(decls[i].fn, count) + CheckFileAsWritten(decls[i + 1..], count))
  {
    var fn := decls[i].fn;
    var after := VisitedAsWritten(decls[i + 1..]);
    assert decls == decls[..i] + ([decls[i]] + decls[i + 1..]);
    VisitedAsWrittenAppend(decls[..i], [decls[i]] + decls[i + 1..]);
    VisitedAsWrittenAppend([decls[i]], decls[i + 1..]);
    assert [decls[i]][1..] == [];
    assert VisitedAsWritten([decls[i]]) == [fn];
    CheckAllAppend(VisitedAsWritten(decls[..i]), [fn] + after, count);
    CheckAllAppend([fn], after, count);
    CheckOne(fn, count);
  }

  /** `func() int {}`: a literal with a result and an empty body. */
  function EmptyLiteral(): Function {
    Function([], [ParamGroup(2, [], false)], Some(Block([], true, 3)))
  }

  /** `func outer() { func() int {}() }`: a function without results whose
      body calls that literal. */
  function OuterOfEmptyLiteral(): Function {
    Function([], [], Some(Block([ExprStmt(OtherExpr(4, [FunctionLit(EmptyLiteral())]))], true, 1)))
  }

  /** A nested literal that the visitor never reaches: the literal on its
      own has a missing return, yet the file yields no problem at all. */
  lemma NestedLiteralIsNotChecked(count: ResultCounter)
    ensures CheckFunction(EmptyLiteral(), count) == [Problem(NoReturnFound, 3)]
    ensures CheckFileAsWritten([TopFunction(OuterOfEmptyLiteral())], count) == []
  {
    EmptyLiteralHasNoReturn(count);
    OuterIsClean(count);
    VisitsOnlyOuter();
    CheckOne(OuterOfEmptyLiteral(), count);
  }

  lemma VisitsOnlyOuter()
    ensures VisitedAsWritten([TopFunction(OuterOfEmptyLiteral())]) == [OuterOfEmptyLiteral()]
  {
    var decls := [TopFunction(OuterOfEmptyLiteral())];
    assert decls[1..] == [];
  }

  lemma EmptyLiteralHasNoReturn(count: ResultCounter)
    ensures CheckFunction(EmptyLiteral(), count) == [Problem(NoReturnFound, 3)]
  {
    var inner := EmptyLiteral();
    CheckFunctionInOrder(inner, count);
    EmptyLiteralMissesReturn(count);
    EmptyLiteralSignatureIsClean(count);
  }

  lemma EmptyLiteralMissesReturn(count: ResultCounter)
    ensures RunCheck(MissingReturnCheck, EmptyLiteral(), count) == [Problem(NoReturnFound, 3)]
  {
    assert !HasReturnAtTheEnd(EmptyLiteral().body.value);
  }

  lemma EmptyLiteralSignatureIsClean(count: ResultCounter)
    ensures RunCheck(DuplicateCheck, EmptyLiteral(), count) == []
    ensures RunCheck(RedeclaredCheck, EmptyLiteral(), count) == []
    ensures RunCheck(ReturnCountCheck, EmptyLiteral(), count) == []
    ensures RunCheck(VariadicCheck, EmptyLiteral(), count) == []
  {
    NoDuplicatesWithoutParameters(EmptyLiteral());
    NoRedeclarationsWithoutParameters(EmptyLiteral());
    EmptyLiteralHasNoOwnReturns(count);
    EmptyLiteralHasNoVariadic();
  }

  lemma NoDuplicatesWithoutParameters(fn: Function)
    requires fn.params == []
    ensures DuplicateArguments(fn) == []
  {
    assert IdentsOf(fn.params) == [];
  }

  lemma NoRedeclarationsWithoutParameters(fn: Function)
    requires fn.params == []
    ensures RedeclaredInResults(fn) == []
  {
    assert IdentsOf(fn.params) == [];
  }

  lemma EmptyLiteralHasNoOwnReturns(count: ResultCounter)
    ensures ReturnCountMismatches(EmptyLiteral(), count) == []
  {
    assert OwnReturns(EmptyLiteral()) == [];
  }

  lemma EmptyLiteralHasNoVariadic()
    ensures VariadicProblems(EmptyLiteral()) == []
  {
  }

  lemma OuterHasNoOwnReturns()
    ensures OwnReturns(OuterOfEmptyLiteral()) == []
  {
    var call := OtherExpr(4, [FunctionLit(EmptyLiteral())]);
    assert ExprsReturns(call.children) == ExprReturns(FunctionLit(EmptyLiteral())) + ExprsReturns([]);
    assert ExprReturns(call) == [];
    assert StmtsReturns(OuterOfEmptyLiteral().body.value.stmts) == StmtReturns(ExprStmt(call)) + StmtsReturns([]);
  }

  lemma OuterIsClean(count: ResultCounter)
    ensures CheckFunction(OuterOfEmptyLiteral(), count) == []
  {
    var outer := OuterOfEmptyLiteral();
    CheckFunctionInOrder(outer, count);
    OuterSignatureIsClean(count);
    OuterHasNoOwnReturns();
    assert RunCheck(ReturnCountCheck, outer, count) == [];
  }

  lemma OuterSignatureIsClean(count: ResultCounter)
    ensures RunCheck(MissingReturnCheck, OuterOfEmptyLiteral(), count) == []
    ensures RunCheck(DuplicateCheck, OuterOfEmptyLiteral(), count) == []
    ensures RunCheck(RedeclaredCheck, OuterOfEmptyLiteral(), count) == []
    ensures RunCheck(VariadicCheck, OuterOfEmptyLiteral(), count) == []
  {
    NoDuplicatesWithoutParameters(OuterOfEmptyLiteral());
    NoRedeclarationsWithoutParameters(OuterOfEmptyLiteral());
    OuterNeedsNoReturn();
    OuterHasNoVariadic();
  }

  lemma OuterNeedsNoReturn()
    ensures MissingReturn(OuterOfEmptyLiteral()) == []
  {
  }

  lemma OuterHasNoVariadic()
    ensures VariadicProblems(OuterOfEmptyLiteral()) == []
  {
  }

  // ---------------------------------------------------------------------
  // The corrected file visitor
  // ---------------------------------------------------------------------

  /** The corrected walk over an expression: a function literal is checked
      and then walked into, like any other node. */
  function CheckExpr(e: Expr, count: ResultCounter): seq<Problem>
    decreases e, 1
  {
    match e
    case FunctionLit(g) => CheckFunction(g, count) + CheckInFunction(g, count)
    case BuiltinCall(_, args) => CheckExprs(args, count)
    case OtherExpr(_, children) => CheckExprs(children, count)
  }

  function CheckExprs(es: seq<Expr>, count: ResultCounter): seq<Problem>
    decreases es, 0
  {
    if es == [] then [] else CheckExpr(es[0], count) + CheckExprs(es[1..], count)
  }

  function CheckStmt(s: Stmt, count: ResultCounter): seq<Problem>
    decreases s, 1
  {
    match s
    case ReturnStmt(_, es) => CheckExprs(es, count)
    case LabeledStmt(None) => []
    case LabeledStmt(Some(t)) => CheckStmt(t, count)
    case ExprStmt(e) => CheckExpr(e, count)
    case BlockStmt(b) => CheckStmts(b.stmts, count)
    case OtherStmt(es, ss) => CheckExprs(es, count) + CheckStmts(ss, count)
  }

  function CheckStmts(ss: seq<Stmt>, count: ResultCounter): seq<Problem>
    decreases ss, 0
  {
    if ss == [] then [] else CheckStmt(ss[0], count) + CheckStmts(ss[1..], count)
  }

  function CheckInFunction(fn: Function, count: ResultCounter): seq<Problem>
    decreases fn, 0
  {
    if fn.body.Some? then CheckStmts(fn.body.value.stmts, count) else []
  }

  /** `doCheckFile` with the visitor continuing below each node it checks. */
  function CheckFile(decls: seq<TopDecl>, count: ResultCounter): seq<Problem> {
    if decls == [] then [] else CheckDecl(decls[0], count) + CheckFile(decls[1..], count)
  }

  function CheckDecl(d: TopDecl, count: ResultCounter): seq<Problem> {
    match d
    case TopFunction(fn) => CheckFunction(fn, count) + CheckInFunction(fn, count)
    case TopMethod(fn) => CheckFunction(fn, count) + CheckInFunction(fn, count)
    case OtherDecl(es) => CheckExprs(es, count)
  }

  /** The corrected driver runs the five checks on every function, method
      and function literal of the file, each before those nested in it. */
  lemma {:induction false} CheckFileChecksAll(decls: seq<TopDecl>, count: ResultCounter)
    ensures CheckFile(decls, count) == CheckAll(AllFunctions(decls), count)
  {
    if decls != [] {
      CheckFileChecksAll(decls[1..], count);
      DeclWalk(decls[0], count);
      CheckAllAppend(FunctionsOf(decls[0]), AllFunctions(decls[1..]), count);
    }
  }

  lemma {:induction false} DeclWalk(d: TopDecl, count: ResultCounter)
    ensures CheckDecl(d, count) == CheckAll(FunctionsOf(d), count)
  {
    match d
    case OtherDecl(es) => ExprsWalk(es, count);
    case TopFunction(fn) =>
      FunctionWalk(fn, count);
      CheckAllAppend([fn], LiteralsInFunction(fn), count);
    case TopMethod(fn) =>
      FunctionWalk(fn, count);
      CheckAllAppend([fn], LiteralsInFunction(fn), count);
  }

  lemma {:induction false} ExprWalk(e: Expr, count: ResultCounter)
    ensures CheckExpr(e, count) == CheckAll(LiteralsInExpr(e), count)
    decreases e, 1
  {
    match e
    case FunctionLit(g) =>
      FunctionWalk(g, count);
      CheckAllAppend([g], LiteralsInFunction(g), count);
    case BuiltinCall(_, args) => ExprsWalk(args, count);
    case OtherExpr(_, children) => ExprsWalk(children, count);
  }

  lemma {:induction false} ExprsWalk(es: seq<Expr>, count: ResultCounter)
    ensures CheckExprs(es, count) == CheckAll(LiteralsInExprs(es), count)
    decreases es, 0
  {
    if es != [] {
      ExprWalk(es[0], count);
      ExprsWalk(es[1..], count);
      CheckAllAppend(LiteralsInExpr(es[0]), LiteralsInExprs(es[1..]), count);
    }
  }

  lemma {:induction false} StmtWalk(s: Stmt, count: ResultCounter)
    ensures CheckStmt(s, count) == CheckAll(LiteralsInStmt(s), count)
    decreases s, 1
  {
    match s
    case ReturnStmt(_, es) => ExprsWalk(es, count);
    case LabeledStmt(None) =>
    case LabeledStmt(Some(t)) => StmtWalk(t, count);
    case ExprStmt(e) => ExprWalk(e, count);
    case BlockStmt(b) => StmtsWalk(b.stmts, count);
    case OtherStmt(es, ss) =>
      ExprsWalk(es, count);
      StmtsWalk(ss, count);
      CheckAllAppend(LiteralsInExprs(es), LiteralsInStmts(ss), count);
  }

  lemma {:induction false} StmtsWalk(ss: seq<Stmt>, count: ResultCounter)
    ensures CheckStmts(ss, count) == CheckAll(LiteralsInStmts(ss), count)
    decreases ss, 0
  {
    if ss != [] {
      StmtWalk(ss[0], count);
      StmtsWalk(ss[1..], count);
      CheckAllAppend(LiteralsInStmt(ss[0]), LiteralsInStmts(ss[1..]), count);
    }
  }

  lemma {:induction false} FunctionWalk(fn: Function, count: ResultCounter)
    ensures CheckInFunction(fn, count) == CheckAll(LiteralsInFunction(fn), count)
    decreases fn, 0
  {
    if fn.body.Some? {
      StmtsWalk(fn.body.value.stmts, count);
    }
  }

  /** The corrected driver reaches the literal the one as written misses. */
  lemma NestedLiteralIsCheckedWhenCorrected(count: ResultCounter)
    ensures CheckFile([TopFunction(OuterOfEmptyLiteral())], count) == [Problem(NoReturnFound, 3)]
  {
    EmptyLiteralHasNoReturn(count);
    OuterIsClean(count);
    OuterBodyReachesLiteral(count);
    SingleDeclFile(TopFunction(OuterOfEmptyLiteral()), count);
  }

  lemma SingleDeclFile(d: TopDecl, count: ResultCounter)
    ensures CheckFile([d], count) == CheckDecl(d, count)
  {
    assert [d][1..] == [];
  }

  /** Walking the outer body reaches the literal and checks it. */
  lemma OuterBodyReachesLiteral(count: ResultCounter)
    ensures CheckInFunction(OuterOfEmptyLiteral(), count) == CheckFunction(EmptyLiteral(), count)
  {
    FunctionWalk(OuterOfEmptyLiteral(), count);
    OuterHoldsOneLiteral();
  }

  lemma OuterHoldsOneLiteral()
    ensures LiteralsInFunction(OuterOfEmptyLiteral()) == [EmptyLiteral()]
  {
    var inner := EmptyLiteral();
    var call := OtherExpr(4, [FunctionLit(inner)]);
    assert LiteralsInFunction(inner) == [];
    assert LiteralsInExprs(call.children) == LiteralsInExpr(FunctionLit(inner)) + LiteralsInExprs([]);
    assert LiteralsInStmts(OuterOfEmptyLiteral().body.value.stmts) == LiteralsInStmt(ExprStmt(call)) + LiteralsInStmts([]);
  }

  /** Where the file has no literal below another function-like node, the
      driver as written and the corrected one agree. */
  lemma AgreeWithoutNestedLiterals(decls: seq<TopDecl>, count: ResultCounter)
    requires forall g :: g in AllFunctions(decls) ==> LiteralsInFunction(g) == []
    ensures CheckFileAsWritten(decls, count) == CheckFile(decls, count)
  {
    FlatFile(decls);
    CheckFileChecksAll(decls, count);
  }

  lemma {:induction false} FlatFile(decls: seq<TopDecl>)
    requires forall g :: g in AllFunctions(decls) ==> LiteralsInFunction(g) == []
    ensures VisitedAsWritten(decls) == AllFunctions(decls)
  {
    if decls != [] {
      assert AllFunctions(decls) == FunctionsOf(decls[0]) + AllFunctions(decls[1..]);
      FlatFile(decls[1..]);
      FlatDecl(decls[0]);
    }
  }

  lemma FlatDecl(d: TopDecl)
    requires forall g :: g in FunctionsOf(d) ==> LiteralsInFunction(g) == []
    ensures VisitedIn(d) == FunctionsOf(d)
  {
    match d
    case OtherDecl(es) => FlatLiterals(es);
    case TopFunction(fn) => assert fn in FunctionsOf(d);
    case TopMethod(fn) => assert fn in FunctionsOf(d);
  }

  /** In an expression list whose literals contain no literals, the walk
      that stops at a literal finds all of them. */
  lemma {:induction false} FlatLiterals(es: seq<Expr>)
    requires forall g :: g in LiteralsInExprs(es) ==> LiteralsInFunction(g) == []
    ensures ShallowLiteralsIn(es) == LiteralsInExprs(es)
    decreases es, 0
  {
    if es != [] {
      FlatLiteralsIn(es[0]);
      FlatLiterals(es[1..]);
    }
  }

  lemma {:induction false} FlatLiteralsIn(e: Expr)
    requires forall g :: g in LiteralsInExpr(e) ==> LiteralsInFunction(g) == []
    ensures ShallowLiterals(e) == LiteralsInExpr(e)
    decreases e, 1
  {
    match e
    case FunctionLit(g) =>
      assert g in LiteralsInExpr(e);
    case BuiltinCall(_, args) => FlatLiterals(args);
    case OtherExpr(_, children) => FlatLiterals(children);
  }
}
