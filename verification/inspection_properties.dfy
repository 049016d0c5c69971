/** Properties of the return-count check that relate several functions or
    statements: literals keep their returns to themselves, and returns of
    the declared arity are never reported. */
module InspectionProperties {
  import opened GoSyntax
  import opened FunctionInspection

  /** `fn` with the statement `s` put in front of its body. */
  function Prepend(fn: Function, s: Stmt): Function
    requires fn.body.Some?
  {
    var b := fn.body.value;
    fn.(body := Some(b.(stmts := [s] + b.stmts)))
  }

  /** A function literal used as a statement contributes none of its return
      statements, whatever they are, to the enclosing function's count
      check. */
  lemma LiteralReturnsAreNotCounted(fn: Function, g: Function, count: ResultCounter)
    requires fn.body.Some?
    ensures ReturnCountMismatches(Prepend(fn, ExprStmt(FunctionLit(g))), count) == ReturnCountMismatches(fn, count)
  {
    var ss := fn.body.value.stmts;
    var s := ExprStmt(FunctionLit(g));
    assert ([s] + ss)[1..] == ss;
    assert StmtsReturns([s] + ss) == StmtsReturns(ss);
    assert OwnReturns(Prepend(fn, s)) == OwnReturns(fn);
  }

  /** A return statement of the enclosing function is counted wherever it
      sits among ordinary statements: wrapping it in a block keeps it. */
  lemma NestedBlockReturnsAreCounted(fn: Function, t: Stmt)
    requires fn.body.Some? && t.ReturnStmt?
    ensures OwnReturns(Prepend(fn, BlockStmt(Block([t], true, 0)))) == [t] + OwnReturns(fn)
  {
    var ss := fn.body.value.stmts;
    var s := BlockStmt(Block([t], true, 0));
    assert ([s] + ss)[1..] == ss;
    assert StmtsReturns([t]) == StmtReturns(t) + StmtsReturns([]);
    assert StmtsReturns([s] + ss) == StmtReturns(s) + StmtsReturns(ss);
  }

  /** Returns whose value count equals the expected count, or that the
      host cannot count, yield no problem. */
  lemma {:induction false} MatchingReturnsAreSilent(rets: seq<Stmt>, expected: nat, named: bool, count: ResultCounter)
    requires forall t :: t in rets ==> t.ReturnStmt?
    requires forall t :: t in rets ==> ReturnCount(t.exprs, count) in {None, Some(expected)}
    ensures ReturnProblems(rets, expected, named, count) == []
  {
    if rets != [] {
      assert rets[0] in rets;
      assert forall t :: t in rets[1..] ==> t in rets;
      MatchingReturnsAreSilent(rets[1..], expected, named, count);
    }
  }

  /** A function whose every own return yields the declared number of
      values has no count problem. */
  lemma FunctionWithMatchingReturnsIsSilent(fn: Function, count: ResultCounter)
    requires forall t :: t in OwnReturns(fn) ==> ReturnCount(t.exprs, count) == Some(ExpectedResCount(fn.results))
    ensures ReturnCountMismatches(fn, count) == []
  {
    MatchingReturnsAreSilent(OwnReturns(fn), ExpectedResCount(fn.results), HasNamedReturns(fn.results), count);
  }

  /** A bare `return` in a function with unnamed results is reported as
      not returning enough values. */
  lemma BareReturnWithUnnamedResults(anchor: nat, results: seq<ParamGroup>, count: ResultCounter)
    requires results != [] && !HasNamedReturns(results)
    ensures ReturnProblem(anchor, [], ExpectedResCount(results), false, count) == [Problem(NotEnoughReturnValues, anchor)]
  {
    UnnamedCountsGroups(results);
  }
}
