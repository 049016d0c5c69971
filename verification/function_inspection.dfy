/** The function-contract checker (FunctionDeclarationInspection): five
    independent checks run on one function, method or function literal. */
module FunctionInspection {
  import opened GoSyntax

  /** One parameter or result group: `a, b int` or `args ...int`, or an
      unnamed result type (no identifiers). `anchor` stands for the group. */
  datatype ParamGroup = ParamGroup(anchor: nat, idents: seq<Ident>, isVariadic: bool)

  /** A function-like node: parameter groups, result groups and, unless it
      is only a signature, a body. */
  datatype Function = Function(params: seq<ParamGroup>, results: seq<ParamGroup>, body: Option<Block>)

  /** A block with its statements (whitespace and comments already
      dropped); `closed` tells whether it ends in `}`, and `lastChild`
      stands for its last child element. */
  datatype Block = Block(stmts: seq<Stmt>, closed: bool, lastChild: nat)

  datatype Stmt =
    | ReturnStmt(anchor: nat, exprs: seq<Expr>)
      /** a labelled statement; the inner statement may be missing */
    | LabeledStmt(inner: Option<Stmt>)
    | ExprStmt(expr: Expr)
    | BlockStmt(block: Block)
      /** any other statement (if, for, switch, assignment, ...) with the
          expressions and statements it contains */
    | OtherStmt(exprs: seq<Expr>, stmts: seq<Stmt>)

  datatype Expr =
      /** a call of a builtin such as `panic`, with the text of its base
          expression when it has one */
    | BuiltinCall(base: Option<string>, args: seq<Expr>)
    | FunctionLit(fn: Function)
    | OtherExpr(anchor: nat, children: seq<Expr>)

  datatype ProblemKind =
    | NoReturnFound
    | DuplicateArgument(name: string)
    | RedeclaredInBlock(name: string)
    | TooManyReturnValues
    | NotEnoughReturnValues
    | OutputVariadic
    | VariadicNotTheLast

  /** A reported problem: its kind and the element it is anchored at. */
  datatype Problem = Problem(kind: ProblemKind, anchor: nat)

  /** The number of values one returned expression yields, or `None` when
      it cannot be determined; supplied by the host. */
  type ResultCounter = Expr -> Option<nat>

  /** All identifiers of a list of groups, left to right. */
  function IdentsOf(groups: seq<ParamGroup>): (r: seq<Ident>)
    ensures forall x :: x in r <==> exists g :: g in groups && x in g.idents
  {
    if groups == [] then [] else groups[0].idents + IdentsOf(groups[1..])
  }

  // ---------------------------------------------------------------------
  // 1. Missing return at the end
  // ---------------------------------------------------------------------

  /** Strips labels off a statement; `None` when a label has no statement. */
  function Unlabel(s: Stmt): (r: Option<Stmt>)
    ensures r.Some? ==> !r.value.LabeledStmt?
  {
    match s
    case LabeledStmt(None) => None
    case LabeledStmt(Some(t)) => Unlabel(t)
    case _ => Some(s)
  }

  /** An expression statement whose call is the builtin `panic`. */
  predicate IsPanicCall(s: Stmt) {
    s.ExprStmt? && s.expr.BuiltinCall? && s.expr.base == Some("panic")
  }

  predicate IsTerminating(s: Stmt) {
    s.ReturnStmt? || IsPanicCall(s)
  }

  /** `hasReturnAtTheEnd`: the block ends in `}` and the statement before
      it, once unlabelled, returns or panics. */
  predicate HasReturnAtTheEnd(b: Block) {
    && b.closed
    && |b.stmts| > 0
    && var last := Unlabel(b.stmts[|b.stmts| - 1]);
       last.Some? && IsTerminating(last.value)
  }

  /** `t` under `k` labels. */
  function Labelled(k: nat, t: Stmt): Stmt {
    if k == 0 then t else LabeledStmt(Some(Labelled(k - 1, t)))
  }

  /** Independent statement of the same condition: the last statement is a
      return or a panic call under some number of labels. */
  ghost predicate EndsInTerminator(b: Block) {
    && b.closed
    && |b.stmts| > 0
    && exists k: nat, t: Stmt :: b.stmts[|b.stmts| - 1] == Labelled(k, t) && IsTerminating(t)
  }

  lemma {:induction false} UnlabelFindsLabelled(s: Stmt)
    ensures Unlabel(s).Some? ==> exists k: nat :: s == Labelled(k, Unlabel(s).value)
  {
    match s
    case LabeledStmt(Some(t)) =>
      UnlabelFindsLabelled(t);
      if Unlabel(t).Some? {
        var k: nat :| t == Labelled(k, Unlabel(t).value);
        assert s == Labelled(k + 1, Unlabel(s).value);
      }
    case LabeledStmt(None) =>
    case _ =>
      assert s == Labelled(0, s);
  }

  lemma {:induction false} UnlabelOfLabelled(k: nat, t: Stmt)
    requires !t.LabeledStmt?
    ensures Unlabel(Labelled(k, t)) == Some(t)
  {
    if k > 0 {
      UnlabelOfLabelled(k - 1, t);
    }
  }

  lemma HasReturnAtTheEndIffTerminator(b: Block)
    ensures HasReturnAtTheEnd(b) <==> EndsInTerminator(b)
  {
    if b.closed && |b.stmts| > 0 {
      var last := b.stmts[|b.stmts| - 1];
      if HasReturnAtTheEnd(b) {
        UnlabelFindsLabelled(last);
      }
      if EndsInTerminator(b) {
        var k: nat, t: Stmt :| last == Labelled(k, t) && IsTerminating(t);
        UnlabelOfLabelled(k, t);
      }
    }
  }

  /** A labelled `panic` call ends a closed body; a call of another
      builtin, a builtin call without a base expression, or a body whose
      closing brace is missing does not. */
  lemma PanicEndsBody(args: seq<Expr>, anchor: nat)
    ensures HasReturnAtTheEnd(Block([LabeledStmt(Some(ExprStmt(BuiltinCall(Some("panic"), args))))], true, anchor))
    ensures !HasReturnAtTheEnd(Block([LabeledStmt(Some(ExprStmt(BuiltinCall(Some("close"), args))))], true, anchor))
    ensures !HasReturnAtTheEnd(Block([ExprStmt(BuiltinCall(None, args))], true, anchor))
    ensures !HasReturnAtTheEnd(Block([ExprStmt(BuiltinCall(Some("panic"), args))], false, anchor))
  {
    var panic := ExprStmt(BuiltinCall(Some("panic"), args));
    var closing := ExprStmt(BuiltinCall(Some("close"), args));
    assert Unlabel(LabeledStmt(Some(panic))) == Unlabel(panic) == Some(panic);
    assert Unlabel(LabeledStmt(Some(closing))) == Unlabel(closing) == Some(closing);
    assert "close"[0] != "panic"[0];
  }

  lemma BodyEndsInTerminator(fn: Function)
    ensures fn.body.Some? ==> (HasReturnAtTheEnd(fn.body.value) <==> EndsInTerminator(fn.body.value))
  {
    if fn.body.Some? {
      HasReturnAtTheEndIffTerminator(fn.body.value);
    }
  }

  /** `hasResultButNoReturnAtTheEnd`: one problem at the block's last child
      exactly when results are declared, a body exists, and the body does
      not end in a (possibly labelled) return or panic. */
  function MissingReturn(fn: Function): (r: seq<Problem>)
    ensures |r| <= 1
    ensures r != [] <==> |fn.results| > 0 && fn.body.Some? && !EndsInTerminator(fn.body.value)
    ensures r != [] ==> r[0] == Problem(NoReturnFound, fn.body.value.lastChild)
  {
    BodyEndsInTerminator(fn);
    if |fn.results| > 0 && fn.body.Some? && !HasReturnAtTheEnd(fn.body.value) then
      [Problem(NoReturnFound, fn.body.value.lastChild)]
    else []
  }

  // ---------------------------------------------------------------------
  // 2. Duplicate parameter names
  // ---------------------------------------------------------------------

  /** The identifier at `j` is non-blank and its name occurs earlier. */
  predicate IsRepeat(ids: seq<Ident>, j: int) {
    && 0 <= j < |ids|
    && !IsBlank(ids[j])
    && exists i :: 0 <= i < j && ids[i].name == ids[j].name
  }

  /** The positions of all repeated names. */
  function RepeatSet(ids: seq<Ident>): set<nat> {
    set j: nat | j < |ids| && IsRepeat(ids, j)
  }

  function NonBlankNamesBefore(ids: seq<Ident>, n: nat): set<string>
    requires n <= |ids|
  {
    set i | 0 <= i < n && !IsBlank(ids[i]) :: ids[i].name
  }

  function Elements(s: seq<nat>): set<nat> {
    set k | k in s
  }

  ghost predicate Increasing(s: seq<nat>) {
    forall a, b :: 0 <= a < b < |s| ==> s[a] < s[b]
  }

  lemma PrependIncreasing(i: nat, rest: seq<nat>)
    requires Increasing(rest) && forall j :: j in rest ==> j > i
    ensures Increasing([i] + rest)
  {
    forall a, b | 0 <= a < b < |[i] + rest| ensures ([i] + rest)[a] < ([i] + rest)[b] {
      assert ([i] + rest)[b] == rest[b - 1];
      assert rest[b - 1] in rest;
      if a > 0 { assert ([i] + rest)[a] == rest[a - 1]; }
    }
  }

  /** The Java loop with its `seen` set, from position `i` on: the positions
      of repeated names, in order. */
  function RepeatsFrom(ids: seq<Ident>, i: nat, seen: set<string>): (r: seq<nat>)
    requires i <= |ids| && seen == NonBlankNamesBefore(ids, i)
    ensures forall j :: j in r <==> i <= j < |ids| && IsRepeat(ids, j)
    ensures Increasing(r)
    ensures forall j :: j in r ==> j >= i
    decreases |ids| - i
  {
    if i == |ids| then []
    else
      var x := ids[i];
      assert NonBlankNamesBefore(ids, i + 1) ==
        if IsBlank(x) then seen else seen + {x.name};
      assert !IsBlank(x) ==> (x.name in seen <==> IsRepeat(ids, i));
      if IsBlank(x) then RepeatsFrom(ids, i + 1, seen)
      else if x.name in seen then
        var rest := RepeatsFrom(ids, i + 1, seen);
        PrependIncreasing(i, rest);
        [i] + rest
      else RepeatsFrom(ids, i + 1, seen + {x.name})
  }

  function DuplicatePositions(ids: seq<Ident>): (r: seq<nat>)
    ensures forall j :: j in r <==> IsRepeat(ids, j)
    ensures Increasing(r)
  {
    assert NonBlankNamesBefore(ids, 0) == {};
    RepeatsFrom(ids, 0, {})
  }

  /** The problem of the given kind for each listed position, in order. */
  function ProblemsAt(ids: seq<Ident>, ps: seq<nat>, kind: string -> ProblemKind): (r: seq<Problem>)
    requires forall k :: 0 <= k < |ps| ==> ps[k] < |ids|
    ensures |r| == |ps|
    ensures forall p :: p in r <==> exists j :: j in ps && p == Problem(kind(ids[j].name), ids[j].id)
  {
    if ps == [] then []
    else
      var rest := ProblemsAt(ids, ps[1..], kind);
      assert forall j :: j in ps <==> j == ps[0] || j in ps[1..];
      [Problem(kind(ids[ps[0]].name), ids[ps[0]].id)] + rest
  }

  /** One problem per non-blank identifier whose name occurred before it,
      in order. */
  function DuplicateProblems(ids: seq<Ident>): (r: seq<Problem>)
    ensures forall p :: p in r <==> exists j :: IsRepeat(ids, j) && p == Problem(DuplicateArgument(ids[j].name), ids[j].id)
    ensures |r| == |RepeatSet(ids)|
    ensures forall p :: p in r ==> p.kind.DuplicateArgument?
  {
    var ps := DuplicatePositions(ids);
    assert forall k :: 0 <= k < |ps| ==> ps[k] in ps;
    IncreasingCount(ps);
    assert RepeatSet(ids) == Elements(ps);
    ProblemsAt(ids, ps, n => DuplicateArgument(n))
  }

  /** `hasDuplicateArgument`: the repeated parameter names, first
      occurrences and blanks never. */
  function DuplicateArguments(fn: Function): seq<Problem> {
    DuplicateProblems(IdentsOf(fn.params))
  }

  /** An increasing sequence has as many elements as the set of them. */
  lemma {:induction false} IncreasingCount(ps: seq<nat>)
    requires Increasing(ps)
    ensures |Elements(ps)| == |ps|
  {
    var all := Elements(ps);
    if ps == [] {
      assert all == {};
    } else {
      var rest := ps[1..];
      assert Increasing(rest) by {
        forall a, b | 0 <= a < b < |rest| ensures rest[a] < rest[b] {
          assert rest[a] == ps[a + 1] && rest[b] == ps[b + 1];
        }
      }
      IncreasingCount(rest);
      var tail := Elements(rest);
      assert all == tail + {ps[0]} by {
        assert ps == [ps[0]] + rest;
      }
      assert ps[0] !in tail by {
        forall b | 0 <= b < |rest| ensures rest[b] != ps[0] {
          assert rest[b] == ps[b + 1];
        }
      }
      assert |all| == |tail| + 1;
    }
  }

  // ---------------------------------------------------------------------
  // 3. Result names redeclaring parameters
  // ---------------------------------------------------------------------

  /** `getParameterNames`: the non-blank parameter names, in order. */
  function ParameterNames(ids: seq<Ident>): (r: seq<string>)
    ensures forall n :: n in r <==> exists j :: 0 <= j < |ids| && !IsBlank(ids[j]) && ids[j].name == n
  {
    if ids == [] then []
    else
      var rest := ParameterNames(ids[1..]);
      assert forall j :: 1 <= j < |ids| ==> ids[j] == ids[1..][j - 1];
      (if IsBlank(ids[0]) then [] else [ids[0].name]) + rest
  }

  /** The result identifier at `j` is non-blank and names a non-blank parameter. */
  predicate RedeclaresParameter(params: seq<Ident>, results: seq<Ident>, j: int) {
    && 0 <= j < |results|
    && !IsBlank(results[j])
    && exists i :: 0 <= i < |params| && !IsBlank(params[i]) && params[i].name == results[j].name
  }

  /** The positions of all result identifiers that redeclare a parameter. */
  function RedeclaredSet(params: seq<Ident>, results: seq<Ident>): set<nat> {
    set j: nat | j < |results| && RedeclaresParameter(params, results, j)
  }

  /** The Java loop over the result identifiers, from position `i` on,
      testing each against the list of parameter names. */
  function RedeclaredFrom(params: seq<Ident>, names: seq<string>, results: seq<Ident>, i: nat): (r: seq<nat>)
    requires names == ParameterNames(params) && i <= |results|
    ensures forall j :: j in r <==> i <= j && RedeclaresParameter(params, results, j)
    ensures Increasing(r) && forall j :: j in r ==> j >= i
    decreases |results| - i
  {
    if i == |results| then []
    else if !IsBlank(results[i]) && results[i].name in names then
      var rest := RedeclaredFrom(params, names, results, i + 1);
      PrependIncreasing(i, rest);
      [i] + rest
    else RedeclaredFrom(params, names, results, i + 1)
  }

  /** One problem per result identifier that redeclares a parameter, in order. */
  function RedeclaredProblems(ps: seq<Ident>, rs: seq<Ident>): (r: seq<Problem>)
    ensures forall p :: p in r <==> exists j :: RedeclaresParameter(ps, rs, j) && p == Problem(RedeclaredInBlock(rs[j].name), rs[j].id)
    ensures |r| == |RedeclaredSet(ps, rs)|
    ensures forall p :: p in r ==> p.kind.RedeclaredInBlock?
  {
    var pos := RedeclaredFrom(ps, ParameterNames(ps), rs, 0);
    assert forall k :: 0 <= k < |pos| ==> pos[k] in pos;
    IncreasingCount(pos);
    assert RedeclaredSet(ps, rs) == Elements(pos);
    ProblemsAt(rs, pos, n => RedeclaredInBlock(n))
  }

  /** `hasRedeclaredParameterInResultList`: one problem per result
      identifier that is non-blank and equal to a non-blank parameter name,
      in order. */
  function RedeclaredInResults(fn: Function): seq<Problem> {
    RedeclaredProblems(IdentsOf(fn.params), IdentsOf(fn.results))
  }

  // ---------------------------------------------------------------------
  // 4. Return-value count
  // ---------------------------------------------------------------------

  /** `expectedResCount`: each result group counts its names, or one when
      it is an unnamed type. */
  function ExpectedResCount(results: seq<ParamGroup>): (r: nat)
    ensures r >= |results|
    ensures r >= |IdentsOf(results)|
  {
    if results == [] then 0
    else
      var g := results[0];
      (if |g.idents| > 1 then |g.idents| else 1) + ExpectedResCount(results[1..])
  }

  /** `hasNamedReturns`: some result group has a name. */
  predicate HasNamedReturns(results: seq<ParamGroup>) {
    exists i :: 0 <= i < |results| && |results[i].idents| > 0
  }

  /** Some result group is named iff the result list names an identifier. */
  lemma NamedIffSomeResultName(results: seq<ParamGroup>)
    ensures HasNamedReturns(results) <==> |IdentsOf(results)| > 0
  {
    if HasNamedReturns(results) {
      var i :| 0 <= i < |results| && |results[i].idents| > 0;
      assert results[i].idents[0] in IdentsOf(results);
    }
    if |IdentsOf(results)| > 0 {
      var x := IdentsOf(results)[0];
      assert x in IdentsOf(results);
      var g :| g in results && x in g.idents;
    }
  }

  /** With every result named, the expected count is the number of names. */
  lemma {:induction false} AllNamedCountsNames(results: seq<ParamGroup>)
    requires forall i :: 0 <= i < |results| ==> |results[i].idents| > 0
    ensures ExpectedResCount(results) == |IdentsOf(results)|
  {
    if results != [] {
      AllNamedCountsNames(results[1..]);
    }
  }

  /** With no result named, the expected count is the number of groups. */
  lemma {:induction false} UnnamedCountsGroups(results: seq<ParamGroup>)
    requires !HasNamedReturns(results)
    ensures ExpectedResCount(results) == |results|
  {
    if results != [] {
      assert !HasNamedReturns(results[1..]) by {
        forall i | 0 <= i < |results| - 1 ensures |results[1..][i].idents| == 0 {
          assert results[1..][i] == results[i + 1];
        }
      }
      UnnamedCountsGroups(results[1..]);
    }
  }

  /** The number of values a return statement yields: the host's count for
      a single expression, otherwise the number of expressions. */
  function ReturnCount(exprs: seq<Expr>, count: ResultCounter): Option<nat> {
    if |exprs| == 1 then count(exprs[0]) else Some(|exprs|)
  }

  /** The host's counter is consulted only for a return of exactly one
      expression: any other return yields its number of expressions, zero
      for a bare `return`, and only a single expression can make the count
      unknown. */
  lemma ReturnCountConsultsHostForOne(exprs: seq<Expr>, count: ResultCounter, other: ResultCounter)
    ensures |exprs| != 1 ==> ReturnCount(exprs, count) == ReturnCount(exprs, other) == Some(|exprs|)
    ensures ReturnCount(exprs, count).None? ==> |exprs| == 1 && count(exprs[0]).None?
  {
  }

  /** `visitReturnStatement`: at most one problem per return statement. */
  function ReturnProblem(anchor: nat, exprs: seq<Expr>, expected: nat, named: bool, count: ResultCounter): (r: seq<Problem>)
    ensures |r| <= 1
    ensures var n := ReturnCount(exprs, count);
      && (n.None? || (n.value == 0 && named) ==> r == [])
      && (r == [Problem(TooManyReturnValues, anchor)] <==> n.Some? && !(n.value == 0 && named) && expected < n.value)
      && (r == [Problem(NotEnoughReturnValues, anchor)] <==> n.Some? && !(n.value == 0 && named) && expected > n.value)
      && (n.Some? && n.value == expected ==> r == [])
  {
    var n := ReturnCount(exprs, count);
    if n.None? || (n.value == 0 && named) then []
    else if expected < n.value then [Problem(TooManyReturnValues, anchor)]
    else if expected > n.value then [Problem(NotEnoughReturnValues, anchor)]
    else []
  }

  /** The return statements the return visitor reaches in a statement: it
      does not look inside a return statement's own expressions, and it
      stops at function literals, which are checked on their own. */
  function StmtReturns(s: Stmt): (r: seq<Stmt>)
    ensures forall t :: t in r ==> t.ReturnStmt?
  {
    match s
    case ReturnStmt(_, _) => [s]
    case LabeledStmt(None) => []
    case LabeledStmt(Some(t)) => StmtReturns(t)
    case ExprStmt(e) => ExprReturns(e)
    case BlockStmt(b) => StmtsReturns(b.stmts)
    case OtherStmt(es, ss) => ExprsReturns(es) + StmtsReturns(ss)
  }

  function StmtsReturns(ss: seq<Stmt>): (r: seq<Stmt>)
    ensures forall t :: t in r ==> t.ReturnStmt?
  {
    if ss == [] then [] else StmtReturns(ss[0]) + StmtsReturns(ss[1..])
  }

  function ExprReturns(e: Expr): (r: seq<Stmt>)
    ensures forall t :: t in r ==> t.ReturnStmt?
  {
    match e
    case FunctionLit(_) => []
    case BuiltinCall(_, args) => ExprsReturns(args)
    case OtherExpr(_, children) => ExprsReturns(children)
  }

  function ExprsReturns(es: seq<Expr>): (r: seq<Stmt>)
    ensures forall t :: t in r ==> t.ReturnStmt?
  {
    if es == [] then [] else ExprReturns(es[0]) + ExprsReturns(es[1..])
  }

  /** The return statements of a function's own body. */
  function OwnReturns(fn: Function): (r: seq<Stmt>)
    ensures forall t :: t in r ==> t.ReturnStmt?
  {
    if fn.body.Some? then StmtsReturns(fn.body.value.stmts) else []
  }

  function ReturnProblems(rets: seq<Stmt>, expected: nat, named: bool, count: ResultCounter): (r: seq<Problem>)
    requires forall t :: t in rets ==> t.ReturnStmt?
    ensures |r| <= |rets|
    ensures forall p :: p in r ==> p.kind in {TooManyReturnValues, NotEnoughReturnValues}
    ensures forall p :: p in r <==> exists t :: t in rets && p in ReturnProblem(t.anchor, t.exprs, expected, named, count)
  {
    if rets == [] then []
    else
      var t := rets[0];
      var rest := ReturnProblems(rets[1..], expected, named, count);
      assert forall u :: u in rets <==> u == t || u in rets[1..];
      ReturnProblem(t.anchor, t.exprs, expected, named, count) + rest
  }

  /** `hasReturnParameterCountMismatch`. */
  function ReturnCountMismatches(fn: Function, count: ResultCounter): (r: seq<Problem>)
    ensures |r| <= |OwnReturns(fn)|
    ensures forall p :: p in r ==> p.kind in {TooManyReturnValues, NotEnoughReturnValues}
    ensures forall p :: p in r <==>
      exists t :: t in OwnReturns(fn) && p in ReturnProblem(t.anchor, t.exprs, ExpectedResCount(fn.results), HasNamedReturns(fn.results), count)
  {
    ReturnProblems(OwnReturns(fn), ExpectedResCount(fn.results), HasNamedReturns(fn.results), count)
  }

  // ---------------------------------------------------------------------
  // 5. Variadic markers
  // ---------------------------------------------------------------------

  /** Positions below `limit` of groups marked variadic, in order. */
  function VariadicBelow(groups: seq<ParamGroup>, limit: nat, i: nat): (r: seq<nat>)
    requires i <= limit <= |groups|
    ensures forall j :: j in r <==> i <= j < limit && groups[j].isVariadic
    ensures Increasing(r) && forall j :: j in r ==> j >= i
    decreases limit - i
  {
    if i == limit then []
    else if groups[i].isVariadic then
      var rest := VariadicBelow(groups, limit, i + 1);
      PrependIncreasing(i, rest);
      [i] + rest
    else VariadicBelow(groups, limit, i + 1)
  }

  function GroupProblems(groups: seq<ParamGroup>, ps: seq<nat>, kind: ProblemKind): (r: seq<Problem>)
    requires forall k :: 0 <= k < |ps| ==> ps[k] < |groups|
    ensures |r| == |ps|
    ensures forall p :: p in r <==> exists j :: j in ps && p == Problem(kind, groups[j].anchor)
  {
    if ps == [] then []
    else
      var rest := GroupProblems(groups, ps[1..], kind);
      assert forall j :: j in ps <==> j == ps[0] || j in ps[1..];
      [Problem(kind, groups[ps[0]].anchor)] + rest
  }

  /** The positions below `limit` of groups marked variadic. */
  function VariadicSet(groups: seq<ParamGroup>, limit: int): set<nat> {
    set i: nat | i < |groups| && i < limit && groups[i].isVariadic
  }

  /** One problem of the given kind per variadic group below `limit`. */
  function VariadicGroupProblems(groups: seq<ParamGroup>, limit: nat, kind: ProblemKind): (r: seq<Problem>)
    requires limit <= |groups|
    ensures forall p :: p in r <==>
      exists i :: 0 <= i < limit && groups[i].isVariadic && p == Problem(kind, groups[i].anchor)
    ensures |r| == |VariadicSet(groups, limit)|
    ensures forall p :: p in r ==> p.kind == kind
  {
    var ps := VariadicBelow(groups, limit, 0);
    assert forall k :: 0 <= k < |ps| ==> ps[k] in ps;
    IncreasingCount(ps);
    assert VariadicSet(groups, limit) == Elements(ps);
    GroupProblems(groups, ps, kind)
  }

  /** `hasVariadicProblems`: every variadic result group, then every
      variadic parameter group other than the last. */
  function VariadicProblems(fn: Function): (r: seq<Problem>)
    ensures forall p :: p in r <==>
      || (exists i :: 0 <= i < |fn.results| && fn.results[i].isVariadic && p == Problem(OutputVariadic, fn.results[i].anchor))
      || (exists i :: 0 <= i < |fn.params| - 1 && fn.params[i].isVariadic && p == Problem(VariadicNotTheLast, fn.params[i].anchor))
    ensures |r| == |VariadicSet(fn.results, |fn.results|)| + |VariadicSet(fn.params, |fn.params| - 1)|
    ensures forall p :: p in r ==> p.kind in {OutputVariadic, VariadicNotTheLast}
  {
    var outs := VariadicGroupProblems(fn.results, |fn.results|, OutputVariadic);
    var notLast := if |fn.params| == 0 then [] else VariadicGroupProblems(fn.params, |fn.params| - 1, VariadicNotTheLast);
    assert |fn.params| == 0 ==> VariadicSet(fn.params, |fn.params| - 1) == {};
    outs + notLast
  }

  // ---------------------------------------------------------------------
  // All five
  // ---------------------------------------------------------------------

  /** Which of the five checks reports a kind of problem. */
  datatype Check = MissingReturnCheck | DuplicateCheck | RedeclaredCheck | ReturnCountCheck | VariadicCheck

  function CheckOf(k: ProblemKind): Check {
    match k
    case NoReturnFound => MissingReturnCheck
    case DuplicateArgument(_) => DuplicateCheck
    case RedeclaredInBlock(_) => RedeclaredCheck
    case TooManyReturnValues => ReturnCountCheck
    case NotEnoughReturnValues => ReturnCountCheck
    case OutputVariadic => VariadicCheck
    case VariadicNotTheLast => VariadicCheck
  }

  /** The problems of one check, as that check alone reports them. */
  function RunCheck(c: Check, fn: Function, count: ResultCounter): seq<Problem> {
    match c
    case MissingReturnCheck => MissingReturn(fn)
    case DuplicateCheck => DuplicateArguments(fn)
    case RedeclaredCheck => RedeclaredInResults(fn)
    case ReturnCountCheck => ReturnCountMismatches(fn, count)
    case VariadicCheck => VariadicProblems(fn)
  }

  /** The five checks in the order `checkFunction` calls them. */
  const AllChecks: seq<Check> := [MissingReturnCheck, DuplicateCheck, RedeclaredCheck, ReturnCountCheck, VariadicCheck]

  /** The problems of the listed checks, one check after another. */
  function RunChecks(cs: seq<Check>, fn: Function, count: ResultCounter): seq<Problem> {
    if cs == [] then [] else RunCheck(cs[0], fn, count) + RunChecks(cs[1..], fn, count)
  }

  /** `checkFunction`: the five checks in their source order. */
  function CheckFunction(fn: Function, count: ResultCounter): seq<Problem> {
    RunChecks(AllChecks, fn, count)
  }

  /** One step of the fold over the checks. */
  lemma RunChecksStep(c: Check, cs: seq<Check>, fn: Function, count: ResultCounter)
    ensures RunChecks([c] + cs, fn, count) == RunCheck(c, fn, count) + RunChecks(cs, fn, count)
  {
    assert ([c] + cs)[1..] == cs;
  }

  /** The combined list, spelled out: the five checks' problems in source
      order. Each step peels one check off the fold. */
  lemma CheckFunctionInOrder(fn: Function, count: ResultCounter)
    ensures CheckFunction(fn, count) == RunCheck(MissingReturnCheck, fn, count) + (RunCheck(DuplicateCheck, fn, count)
      + (RunCheck(RedeclaredCheck, fn, count) + (RunCheck(ReturnCountCheck, fn, count) + RunCheck(VariadicCheck, fn, count))))
  {
    FromDuplicateCheck(fn, count);
    CheckFunctionFirstStep(fn, count);
  }

  lemma CheckFunctionFirstStep(fn: Function, count: ResultCounter)
    ensures CheckFunction(fn, count)
      == RunCheck(MissingReturnCheck, fn, count) + RunChecks([DuplicateCheck, RedeclaredCheck, ReturnCountCheck, VariadicCheck], fn, count)
  {
    RunChecksStep(MissingReturnCheck, [DuplicateCheck, RedeclaredCheck, ReturnCountCheck, VariadicCheck], fn, count);
    assert AllChecks == [MissingReturnCheck] + [DuplicateCheck, RedeclaredCheck, ReturnCountCheck, VariadicCheck];
  }

  lemma FromDuplicateCheck(fn: Function, count: ResultCounter)
    ensures RunChecks([DuplicateCheck, RedeclaredCheck, ReturnCountCheck, VariadicCheck], fn, count)
      == RunCheck(DuplicateCheck, fn, count) + (RunCheck(RedeclaredCheck, fn, count)
      + (RunCheck(ReturnCountCheck, fn, count) + RunCheck(VariadicCheck, fn, count)))
  {
    FromRedeclaredCheck(fn, count);
    RunChecksStep(DuplicateCheck, [RedeclaredCheck, ReturnCountCheck, VariadicCheck], fn, count);
  }

  lemma FromRedeclaredCheck(fn: Function, count: ResultCounter)
    ensures RunChecks([RedeclaredCheck, ReturnCountCheck, VariadicCheck], fn, count)
      == RunCheck(RedeclaredCheck, fn, count) + (RunCheck(ReturnCountCheck, fn, count) + RunCheck(VariadicCheck, fn, count))
  {
    FromReturnCountCheck(fn, count);
    RunChecksStep(RedeclaredCheck, [ReturnCountCheck, VariadicCheck], fn, count);
  }

  lemma FromReturnCountCheck(fn: Function, count: ResultCounter)
    ensures RunChecks([ReturnCountCheck, VariadicCheck], fn, count)
      == RunCheck(ReturnCountCheck, fn, count) + RunCheck(VariadicCheck, fn, count)
  {
    RunChecksStep(ReturnCountCheck, [VariadicCheck], fn, count);
    RunChecksStep(VariadicCheck, [], fn, count);
    assert RunChecks([], fn, count) == [];
  }

  /** The problems of `ps` that check `c` reports, in order. */
  function OfCheck(ps: seq<Problem>, c: Check): (r: seq<Problem>)
    ensures forall p :: p in r <==> p in ps && CheckOf(p.kind) == c
  {
    if ps == [] then []
    else (if CheckOf(ps[0].kind) == c then [ps[0]] else []) + OfCheck(ps[1..], c)
  }

  lemma {:induction false} OfCheckAppend(a: seq<Problem>, b: seq<Problem>, c: Check)
    ensures OfCheck(a + b, c) == OfCheck(a, c) + OfCheck(b, c)
  {
    if a == [] {
      assert a + b == b;
    } else {
      assert (a + b)[1..] == a[1..] + b;
      OfCheckAppend(a[1..], b, c);
    }
  }

  lemma {:induction false} OfCheckAll(ps: seq<Problem>, c: Check)
    requires forall p :: p in ps ==> CheckOf(p.kind) == c
    ensures OfCheck(ps, c) == ps
  {
    if ps != [] {
      OfCheckAll(ps[1..], c);
    }
  }

  lemma {:induction false} OfCheckNone(ps: seq<Problem>, c: Check)
    requires forall p :: p in ps ==> CheckOf(p.kind) != c
    ensures OfCheck(ps, c) == []
  {
    if ps != [] {
      OfCheckNone(ps[1..], c);
    }
  }

  /** Every problem a check reports is of that check's kinds. */
  lemma RunCheckKinds(c: Check, fn: Function, count: ResultCounter)
    ensures forall p :: p in RunCheck(c, fn, count) ==> CheckOf(p.kind) == c
  {
    match c
    case MissingReturnCheck => MissingReturnKinds(fn);
    case DuplicateCheck => DuplicateKinds(fn);
    case RedeclaredCheck => RedeclaredKinds(fn);
    case ReturnCountCheck => ReturnCountKinds(fn, count);
    case VariadicCheck => VariadicKinds(fn);
  }

  lemma MissingReturnKinds(fn: Function)
    ensures forall p :: p in MissingReturn(fn) ==> CheckOf(p.kind) == MissingReturnCheck
  {
    var r := MissingReturn(fn);
    if r != [] {
      assert r == [r[0]];
    }
  }

  lemma DuplicateKinds(fn: Function)
    ensures forall p :: p in DuplicateArguments(fn) ==> CheckOf(p.kind) == DuplicateCheck
  {
  }

  lemma RedeclaredKinds(fn: Function)
    ensures forall p :: p in RedeclaredInResults(fn) ==> CheckOf(p.kind) == RedeclaredCheck
  {
  }

  lemma ReturnCountKinds(fn: Function, count: ResultCounter)
    ensures forall p :: p in ReturnCountMismatches(fn, count) ==> CheckOf(p.kind) == ReturnCountCheck
  {
  }

  lemma VariadicKinds(fn: Function)
    ensures forall p :: p in VariadicProblems(fn) ==> CheckOf(p.kind) == VariadicCheck
  {
  }

  /** The problems of one check, kept whole or dropped entirely. */
  lemma OfCheckPart(x: seq<Problem>, k: Check, c: Check)
    requires forall p :: p in x ==> CheckOf(p.kind) == k
    ensures OfCheck(x, c) == if k == c then x else []
  {
    if k == c {
      OfCheckAll(x, c);
    } else {
      OfCheckNone(x, c);
    }
  }

  /** From the problems of a list of distinct checks, selecting those of
      check `c` gives what `c` reports alone, or nothing if `c` is not
      listed. */
  lemma {:induction false} OfCheckRunChecks(cs: seq<Check>, fn: Function, count: ResultCounter, c: Check)
    requires forall i, j :: 0 <= i < j < |cs| ==> cs[i] != cs[j]
    ensures OfCheck(RunChecks(cs, fn, count), c) == if c in cs then RunCheck(c, fn, count) else []
  {
    if cs != [] {
      var rest := cs[1..];
      assert forall i, j :: 0 <= i < j < |rest| ==> rest[i] != rest[j] by {
        forall i, j | 0 <= i < j < |rest| ensures rest[i] != rest[j] {
          assert rest[i] == cs[i + 1] && rest[j] == cs[j + 1];
        }
      }
      OfCheckRunChecks(rest, fn, count, c);
      OfCheckAppend(RunCheck(cs[0], fn, count), RunChecks(rest, fn, count), c);
      RunCheckKinds(cs[0], fn, count);
      OfCheckPart(RunCheck(cs[0], fn, count), cs[0], c);
      assert c in cs <==> c == cs[0] || c in rest;
      assert c == cs[0] ==> c !in rest;
    }
  }

  /** The checks do not interfere: the problems of each check within the
      combined list are exactly what that check reports on its own, so
      none is skipped or trimmed because another one reported. */
  lemma ChecksAreIndependent(fn: Function, count: ResultCounter, c: Check)
    ensures OfCheck(CheckFunction(fn, count), c) == RunCheck(c, fn, count)
  {
    AllChecksOnce(c);
    OfCheckRunChecks(AllChecks, fn, count, c);
  }

  /** Every check is listed, and none twice. */
  lemma AllChecksOnce(c: Check)
    ensures forall i, j :: 0 <= i < j < |AllChecks| ==> AllChecks[i] != AllChecks[j]
    ensures c in AllChecks
  {
    match c
    case MissingReturnCheck => assert AllChecks[0] == c;
    case DuplicateCheck => assert AllChecks[1] == c;
    case RedeclaredCheck => assert AllChecks[2] == c;
    case ReturnCountCheck => assert AllChecks[3] == c;
    case VariadicCheck => assert AllChecks[4] == c;
  }
}
