/** Properties of the variable-usage walk on small, general tree shapes:
    call targets, shadowing, blank exemption and per-node scope balance. */
module UsageProperties {
  import opened GoSyntax
  import opened Scopes
  import opened VariableUsage

  function Leaf(k: Kind): Node {
    Node(k, [])
  }

  /** `f()`: a call whose first child is a literal expression holding `f`. */
  function CallOf(f: Ident, args: seq<Node>): Node {
    Node(CallOrConversion, [Node(LiteralExpr, [Leaf(Identifier(f))])] + args)
  }

  /** `isFunctionOrMethodCall`, stated on the tree: an identifier is a
      callee name iff its parent is a literal expression that is the first
      child of a call or conversion. */
  lemma CalleeNameIffFirstOfCall(grand: Kind, parent: Kind, pos: Position, i: nat, j: nat)
    ensures IsFunctionOrMethodCall(ChildPosition(parent, ChildPosition(grand, pos, i), j))
      <==> parent.LiteralExpr? && grand.CallOrConversion? && i == 0
  {
  }

  /** The name of a called function is neither recorded as a usage nor
      reported undefined, whatever the scopes hold. */
  lemma {:induction false} CalleeIsNotAUsage(c: Context, f: Ident, pos: Position)
    requires |c.levels| > 0
    ensures Visit(c, CallOf(f, []), pos) == c
  {
    var call := CallOf(f, []);
    assert call.children[0] == Node(LiteralExpr, [Leaf(Identifier(f))]);
    LiteralOfIdentifier(c, f, ChildPosition(CallOrConversion, pos, 0));
    assert VisitChildren(c, call, pos, 1) == c;
    assert BeforeVisit(c, call, pos) == c;
  }

  /** A literal expression wrapping `x`: a read of `x` unless the literal
      is the first child of a call. */
  lemma {:induction false} LiteralOfIdentifier(c: Context, x: Ident, pos: Position)
    requires |c.levels| > 0
    ensures Visit(c, Node(LiteralExpr, [Leaf(Identifier(x))]), pos) ==
      if pos.firstOfCall then c else AddUsage(c, x)
  {
    var lit := Node(LiteralExpr, [Leaf(Identifier(x))]);
    var xPos := ChildPosition(LiteralExpr, pos, 0);
    var u := if pos.firstOfCall then c else AddUsage(c, x);
    VisitLeaf(c, lit.children[0], xPos);
    assert Visit(c, lit.children[0], xPos) == u;
    VisitChildrenStep(c, lit, pos, 0);
    assert VisitChildren(u, lit, pos, 1) == u;
    VisitNonOpening(c, lit, pos);
  }

  /** A name passed as an argument, by contrast, is looked up like any
      other read. */
  lemma {:induction false} ArgumentIsAUsage(c: Context, f: Ident, x: Ident, pos: Position)
    requires |c.levels| > 0
    ensures Visit(c, CallOf(f, [Node(LiteralExpr, [Leaf(Identifier(x))])]), pos) == AddUsage(c, x)
  {
    var call := CallOf(f, [Node(LiteralExpr, [Leaf(Identifier(x))])]);
    CalleeStep(c, f, x, pos);
    ArgumentStep(c, f, x, pos);
    assert BeforeVisit(c, call, pos) == c;
    VisitNonOpening(c, call, pos);
  }

  lemma {:induction false} CalleeStep(c: Context, f: Ident, x: Ident, pos: Position)
    requires |c.levels| > 0
    ensures var call := CallOf(f, [Node(LiteralExpr, [Leaf(Identifier(x))])]);
      VisitChildren(c, call, pos, 0) == VisitChildren(c, call, pos, 1)
  {
    var call := CallOf(f, [Node(LiteralExpr, [Leaf(Identifier(x))])]);
    assert call.children[0] == Node(LiteralExpr, [Leaf(Identifier(f))]);
    LiteralOfIdentifier(c, f, ChildPosition(CallOrConversion, pos, 0));
    VisitChildrenStep(c, call, pos, 0);
  }

  lemma {:induction false} ArgumentStep(c: Context, f: Ident, x: Ident, pos: Position)
    requires |c.levels| > 0
    ensures var call := CallOf(f, [Node(LiteralExpr, [Leaf(Identifier(x))])]);
      VisitChildren(c, call, pos, 1) == AddUsage(c, x)
  {
    var call := CallOf(f, [Node(LiteralExpr, [Leaf(Identifier(x))])]);
    assert call.children[1] == Node(LiteralExpr, [Leaf(Identifier(x))]);
    var u := AddUsage(c, x);
    LiteralOfIdentifier(c, x, ChildPosition(CallOrConversion, pos, 1));
    VisitChildrenStep(c, call, pos, 1);
    VisitChildrenEnd(u, call, pos);
  }

  /** `{ var x; x }`: the read resolves to the block's own `x`, so the
      block leaves every enclosing binding of that name untouched and,
      its `x` having been used, reports nothing. */
  lemma {:induction false} InnerDeclarationShadowsOuter(c: Context, x: Ident, y: Ident, pos: Position)
    requires |c.levels| > 0 && x.name == y.name
    ensures Visit(c, Node(BlockStatement, [Leaf(Declaration(VarDecl, [x])), Leaf(Identifier(y))]), pos) == c
  {
    var block := Node(BlockStatement, [Leaf(Declaration(VarDecl, [x])), Leaf(Identifier(y))]);
    var c1 := BeforeVisit(c, block, pos);
    var top := |c1.levels| - 1;
    var c2 := DefineInBlock(c, c1, x, pos);
    var c3 := UseAtTop(c1, c2, y, top);
    ReadAfterDefinition(c1, c2, c3, x, y, pos);
    VisitOpening(c, block, pos);
    var closed := c3.levels[top];
    assert ReportableKeys(closed, BlockLevel) == {};
    assert Sweep(closed, BlockLevel) == [];
  }

  /** The children of the block above, visited in turn. */
  lemma {:induction false} ReadAfterDefinition(c1: Context, c2: Context, c3: Context, x: Ident, y: Ident, pos: Position)
    requires |c1.levels| > 0
    requires c2 == Visit(c1, Leaf(Declaration(VarDecl, [x])), ChildPosition(BlockStatement, pos, 0))
    requires c3 == AddUsage(c2, y)
    ensures VisitChildren(c1, Node(BlockStatement, [Leaf(Declaration(VarDecl, [x])), Leaf(Identifier(y))]), pos, 0) == c3
  {
    var block := Node(BlockStatement, [Leaf(Declaration(VarDecl, [x])), Leaf(Identifier(y))]);
    var p1 := ChildPosition(BlockStatement, pos, 1);
    VisitChildrenStep(c1, block, pos, 0);
    VisitChildrenStep(c2, block, pos, 1);
    VisitLeaf(c2, block.children[1], p1);
    VisitChildrenEnd(c3, block, pos);
  }

  /** The first step of the block above: `var x` binds `x` in the fresh level. */
  lemma {:induction false} DefineInBlock(c: Context, c1: Context, x: Ident, pos: Position) returns (c2: Context)
    requires |c.levels| > 0
    requires c1 == AddNewScopeLevel(c)
    ensures c2 == Visit(c1, Leaf(Declaration(VarDecl, [x])), ChildPosition(BlockStatement, pos, 0))
    ensures c2.levels == c.levels + [map[x.name := Fresh(x)]] && c2.findings == c.findings
  {
    var decl := Leaf(Declaration(VarDecl, [x]));
    var p0 := ChildPosition(BlockStatement, pos, 0);
    c2 := BeforeVisit(c1, decl, p0);
    VisitLeaf(c1, decl, p0);
    assert c2.levels[|c.levels|] == map[x.name := Fresh(x)];
  }

  /** The second step: the read marks the innermost binding and nothing else. */
  lemma {:induction false} UseAtTop(c1: Context, c2: Context, y: Ident, top: nat) returns (c3: Context)
    requires |c2.levels| == top + 1 && c2.levels[top].Keys == {y.name}
    requires !c2.levels[top][y.name].IsUsed()
    ensures c3 == AddUsage(c2, y)
    ensures c3.levels[..top] == c2.levels[..top] && c3.findings == c2.findings
    ensures c3.levels[top].Keys == {y.name} && c3.levels[top][y.name].IsUsed()
  {
    assert ResolvesTo(c2.levels, y.name, top);
    c3 := AddUsage(c2, y);
  }

  /** `{ x }` with no `x` of its own: the read reaches the enclosing scopes. */
  lemma {:induction false} ReadInBlockReachesEnclosingScopes(c: Context, y: Ident, pos: Position)
    requires |c.levels| > 0
    ensures Visit(c, Node(BlockStatement, [Leaf(Identifier(y))]), pos) == AddUsage(c, y)
  {
    var block := Node(BlockStatement, [Leaf(Identifier(y))]);
    var c1 := BeforeVisit(c, block, pos);
    var c2 := AddUsage(c1, y);
    ReadInBlock(c1, y, pos);
    VisitOpening(c, block, pos);
    var top := |c1.levels| - 1;
    UsageBelowEmptyLevel(c, c1, c2, y);
    assert Sweep(c2.levels[top], BlockLevel) == [];
  }

  /** The one child of the block above, visited. */
  lemma {:induction false} ReadInBlock(c1: Context, y: Ident, pos: Position)
    requires |c1.levels| > 0
    ensures VisitChildren(c1, Node(BlockStatement, [Leaf(Identifier(y))]), pos, 0) == AddUsage(c1, y)
  {
    var block := Node(BlockStatement, [Leaf(Identifier(y))]);
    VisitChildrenStep(c1, block, pos, 0);
    VisitLeaf(c1, block.children[0], ChildPosition(BlockStatement, pos, 0));
    VisitChildrenEnd(AddUsage(c1, y), block, pos);
  }

  /** A read under an empty innermost level resolves as it would without
      that level, which stays empty. */
  lemma UsageBelowEmptyLevel(c: Context, c1: Context, c2: Context, y: Ident)
    requires c1.levels == c.levels + [map[]] && c1.findings == c.findings
    requires c2 == AddUsage(c1, y)
    ensures c2.levels == AddUsage(c, y).levels + [map[]]
    ensures c2.findings == AddUsage(c, y).findings
  {
    var top := |c.levels|;
    var u := AddUsage(c, y);
    if Innermost(c.levels, y.name).Some? {
      var i := Innermost(c.levels, y.name).value;
      assert ResolvesTo(c1.levels, y.name, i);
      assert c2.levels[..top] == u.levels;
    } else {
      assert forall j :: 0 <= j < |c1.levels| ==> y.name !in c1.levels[j] by {
        forall j | 0 <= j < |c1.levels| ensures y.name !in c1.levels[j] {
          if j < top { assert c1.levels[j] == c.levels[j]; }
        }
      }
      assert c2.levels == c1.levels;
    }
  }

  /** An `if`, `for` or block statement with nothing inside opens a level
      and closes it again: nothing is reported and the scopes are as they
      were. */
  lemma {:induction false} EmptyScopeLeavesContext(c: Context, k: Kind, pos: Position)
    requires |c.levels| > 0 && CouldOpenNewScope(k)
    ensures Visit(c, Leaf(k), pos) == c
  {
    var n := Leaf(k);
    var c1 := BeforeVisit(c, n, pos);
    VisitOpening(c, n, pos);
    VisitChildrenEnd(c1, n, pos);
    assert ReportableKeys(map[], BlockLevel) == {};
    assert c1.levels[..|c.levels|] == c.levels;
  }

  /** `{ var x }`: an unused variable is reported, with error severity,
      when its block closes, unless it is blank. */
  lemma {:induction false} UnusedLocalReported(c: Context, x: Ident, pos: Position)
    requires |c.levels| > 0
    ensures var r := Visit(c, Node(BlockStatement, [Leaf(Declaration(VarDecl, [x]))]), pos);
      && r.levels == c.levels
      && (IsBlank(x) ==> r.findings == c.findings)
      && (!IsBlank(x) ==> r.findings == c.findings + [Finding(UnusedVariable, x.id, Error)])
  {
    var block := Node(BlockStatement, [Leaf(Declaration(VarDecl, [x]))]);
    var c1 := BeforeVisit(c, block, pos);
    var c2 := DefineInBlock(c, c1, x, pos);
    VisitChildrenStep(c1, block, pos, 0);
    VisitChildrenEnd(c2, block, pos);
    VisitOpening(c, block, pos);
    var closed := c2.levels[|c.levels|];
    SweepOfSingleton(closed, x.name, BlockLevel);
  }

  /** `func(p)` with an empty body: an unused parameter is reported, with
      the weaker severity, when the function's level closes, unless blank. */
  lemma {:induction false} UnusedParameterReported(c: Context, p: Ident, pos: Position)
    requires |c.levels| > 0
    ensures var r := Visit(c, Leaf(FunctionDecl([[p]])), pos);
      && r.levels == c.levels
      && (IsBlank(p) ==> r.findings == c.findings)
      && (!IsBlank(p) ==> r.findings == c.findings + [Finding(UnusedParameter, p.id, LikeUnusedSymbol)])
  {
    var fn := Leaf(FunctionDecl([[p]]));
    var c1 := BeforeVisit(c, fn, pos);
    assert VisitChildren(c1, fn, pos, 0) == c1;
    var top := |c.levels|;
    var seeded := c1.levels[top];
    assert Flatten([[p]]) == [p];
    assert seeded.Keys == {p.name};
    assert seeded[p.name] == Fresh(p) by {
      assert LastNamed([p], p.name) == p;
    }
    assert seeded == map[p.name := Fresh(p)];
    SweepOfSingleton(seeded, p.name, ParameterLevel);
  }

  /** The sweep of a level holding one unused binding. */
  lemma SweepOfSingleton(level: Level, n: string, k: LevelKind)
    requires level.Keys == {n} && !level[n].IsUsed()
    ensures Reportable(level[n], k) ==>
      Sweep(level, k) == [Finding(CategoryOf(k), level[n].decl.id, SeverityOf(CategoryOf(k)))]
    ensures !Reportable(level[n], k) ==> Sweep(level, k) == []
  {
    var r := Sweep(level, k);
    if Reportable(level[n], k) {
      assert ReportableKeys(level, k) == {n};
      assert |r| == 1;
      assert r[0] in r;
    } else {
      assert ReportableKeys(level, k) == {};
    }
  }

  /** The file-level steps of `func main() { x }; var x = 1` as the source
      is written: a read of `x` marks the seeded global used; the source's
      definition of `x` at file level (`addDefinition` on the global level)
      then puts a fresh binding in its place; and the sweep of that level
      reports `x` as an unused global. */
  lemma GlobalReadLostAsWritten(g: Ident, x: Ident)
    requires g.name == x.name
    ensures var read := AddUsage(Initial(LevelOf([g])), x);
      && read.levels[0][g.name].IsUsed()
      && !AddDefinitions(read, [g]).levels[0][g.name].IsUsed()
      && Sweep(AddDefinitions(read, [g]).levels[0], GlobalLevel) == [Finding(UnusedGlobal, g.id, LikeUnusedSymbol)]
  {
    var c := Initial(LevelOf([g]));
    assert [g][0].name == g.name;
    assert ResolvesTo(c.levels, x.name, 0);
    var read := AddUsage(c, x);
    assert LastNamed([g], g.name) == g;
    var rebound := AddDefinitions(read, [g]).levels[0];
    assert rebound == PutAll(read.levels[0], [g]);
    assert rebound.Keys == {g.name};
    SweepOfSingleton(rebound, g.name, GlobalLevel);
  }

  /** The same steps with the file-level hook corrected: visiting the
      `var x` group leaves the global, and the use recorded on it, as they
      were, and the sweep of the global level reports nothing. The general
      fact, for any file-level subtree, is `VisitKeepsGlobals`. */
  lemma {:induction false} GlobalReadKeptWhenCorrected(g: Ident, x: Ident, pos: Position)
    requires g.name == x.name
    ensures var read := AddUsage(Initial(LevelOf([g])), x);
      && Visit(read, Node(Declarations(VarDecl), [Leaf(Declaration(VarDecl, [g]))]), pos) == read
      && read.levels[0][g.name].IsUsed()
      && Sweep(read.levels[0], GlobalLevel) == []
  {
    var c := Initial(LevelOf([g]));
    assert [g][0].name == g.name;
    assert ResolvesTo(c.levels, x.name, 0);
    var read := AddUsage(c, x);
    var group := Node(Declarations(VarDecl), [Leaf(Declaration(VarDecl, [g]))]);
    VisitNonOpening(read, group, pos);
    VisitChildrenStep(read, group, pos, 0);
    VisitLeaf(read, group.children[0], ChildPosition(group.kind, pos, 0));
    VisitChildrenEnd(read, group, pos);
    assert ReportableKeys(read.levels[0], GlobalLevel) == {};
  }
}
