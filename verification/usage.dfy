/** The variable-usage pass: a pre-order/post-order walk over the Go syntax
    tree that drives the scope tracker (GoVariableUsageStatVisitor). Each
    node is handled before its children (`BeforeVisit`) and after them
    (`AfterVisit`); the walk threads one `Context` value through. */
module VariableUsage {
  import opened GoSyntax
  import opened Scopes

  datatype DeclKind = ConstDecl | VarDecl

  /** The node kinds the pass tells apart; everything else is `OtherElement`. */
  datatype Kind =
      /** a `const (...)` or `var (...)` group; its specs are its `Declaration` children */
    | Declarations(dk: DeclKind)
      /** one const or var spec, binding `idents` */
    | Declaration(dk: DeclKind, idents: seq<Ident>)
      /** an identifier occurrence */
    | Identifier(ident: Ident)
      /** a function declaration, a method declaration or a function literal,
          with the identifiers of each parameter group (none when the
          parameter list is absent) */
    | FunctionDecl(params: seq<seq<Ident>>)
    | IfStatement
    | ForStatement
    | BlockStatement
      /** a literal expression wrapping an identifier */
    | LiteralExpr
      /** a call or conversion; its first child is the callee */
    | CallOrConversion
    | OtherElement

  datatype Node = Node(kind: Kind, children: seq<Node>)

  /** A source file: its top-level elements. */
  datatype GoFile = GoFile(children: seq<Node>)

  /** The statement kinds that open a plain block level. */
  predicate CouldOpenNewScope(k: Kind) {
    k.IfStatement? || k.ForStatement? || k.BlockStatement?
  }

  /** Every kind that opens a level before its children and closes it after. */
  predicate OpensLevel(k: Kind) {
    k.FunctionDecl? || CouldOpenNewScope(k)
  }

  /** Where a node sits: `firstOfCall` when it is the first child of a call
      or conversion, `calleeName` when its parent is a literal expression
      that is itself the first child of a call or conversion. */
  datatype Position = Position(firstOfCall: bool, calleeName: bool)

  const TopPosition := Position(false, false)

  /** The position of the `i`-th child of a node of kind `parent` at `pos`. */
  function ChildPosition(parent: Kind, pos: Position, i: nat): (r: Position)
    ensures r.firstOfCall <==> parent.CallOrConversion? && i == 0
    ensures r.calleeName <==> parent.LiteralExpr? && pos.firstOfCall
  {
    Position(parent.CallOrConversion? && i == 0, parent.LiteralExpr? && pos.firstOfCall)
  }

  /** `isFunctionOrMethodCall`: the identifier names the callee of a call or
      conversion, so it is not a variable read. */
  predicate IsFunctionOrMethodCall(pos: Position) {
    pos.calleeName
  }

  /** The identifiers bound by the `Declaration` children of a group, in
      order (`getDeclarations()` followed by `getIdentifiers()`). */
  function SpecIdents(children: seq<Node>): (r: seq<Ident>)
    ensures forall x :: x in r <==> exists j :: 0 <= j < |children| && children[j].kind.Declaration? && x in children[j].kind.idents
  {
    if children == [] then []
    else
      var rest := SpecIdents(children[1..]);
      assert forall j :: 1 <= j < |children| ==> children[j] == children[1..][j - 1];
      (if children[0].kind.Declaration? then children[0].kind.idents else []) + rest
  }

  // ---------------------------------------------------------------------
  // Dispatch
  // ---------------------------------------------------------------------

  /** The definitions of a const or var group or spec. Inside a function
      they bind the names in the innermost level. At file level the names
      are already bound, from the same declarations, by the globals the
      file starts with (the model takes every file-level const or var
      declaration to be a group that is a direct child of the file, which
      is what the globals are collected from); the hook leaves those bindings, and the uses they
      have gathered from functions earlier in the file, as they are. (As
      written, the source re-binds them at file level too, dropping those
      uses.) */
  function DefineSpecs(c: Context, ids: seq<Ident>): (r: Context)
    requires |c.levels| > 0
    ensures |c.levels| == 1 ==> r == c
    ensures |c.levels| > 1 ==> r == AddDefinitions(c, ids)
  {
    if |c.levels| == 1 then c else AddDefinitions(c, ids)
  }

  /** `beforeVisitElement`. */
  function BeforeVisit(c: Context, n: Node, pos: Position): (r: Context)
    requires |c.levels| > 0
    ensures OpensLevel(n.kind) ==>
      && |r.levels| == |c.levels| + 1
      && r.levels[..|c.levels|] == c.levels
      && r.findings == c.findings
    ensures n.kind.FunctionDecl? ==>
      var top := r.levels[|c.levels|];
      && top.Keys == NamesOf(Flatten(n.kind.params))
      && forall k :: k in top ==> !top[k].IsUsed() && top[k].decl.name == k
    ensures CouldOpenNewScope(n.kind) ==> r.levels[|c.levels|] == map[]
    ensures !OpensLevel(n.kind) ==> |r.levels| == |c.levels|
    ensures n.kind.Identifier? && IsFunctionOrMethodCall(pos) ==> r == c
    ensures n.kind.Identifier? && !IsFunctionOrMethodCall(pos) ==> r == AddUsage(c, n.kind.ident)
    ensures n.kind.Declarations? || n.kind.Declaration? ==>
      && r.findings == c.findings
      && forall j :: 0 <= j < |c.levels| - 1 ==> r.levels[j] == c.levels[j]
    ensures n.kind.Declarations? && |c.levels| > 1 ==>
      r.levels[|c.levels| - 1] == PutAll(c.levels[|c.levels| - 1], SpecIdents(n.children))
    ensures n.kind.Declaration? && |c.levels| > 1 ==>
      r.levels[|c.levels| - 1] == PutAll(c.levels[|c.levels| - 1], n.kind.idents)
    ensures (n.kind.Declarations? || n.kind.Declaration?) && |c.levels| == 1 ==> r == c
    ensures n.kind.LiteralExpr? || n.kind.CallOrConversion? || n.kind.OtherElement? ==> r == c
  {
    match n.kind
    case Declarations(_) => DefineSpecs(c, SpecIdents(n.children))
    case Declaration(_, ids) => DefineSpecs(c, ids)
    case Identifier(x) => if IsFunctionOrMethodCall(pos) then c else AddUsage(c, x)
    case FunctionDecl(ps) => AddScopeLevel(c, LevelOf(Flatten(ps)))
    case IfStatement => AddNewScopeLevel(c)
    case ForStatement => AddNewScopeLevel(c)
    case BlockStatement => AddNewScopeLevel(c)
    case LiteralExpr => c
    case CallOrConversion => c
    case OtherElement => c
  }

  /** `afterVisitElement`: a function closes its parameter level, an if,
      for or block statement its block level, each followed by the sweep
      of the closed level. */
  ghost function AfterVisit(c: Context, n: Node): (r: Context)
    requires |c.levels| > 0
    ensures OpensLevel(n.kind) ==>
      && r.levels == c.levels[..|c.levels| - 1]
      && r.findings == c.findings + Sweep(c.levels[|c.levels| - 1],
                                          if n.kind.FunctionDecl? then ParameterLevel else BlockLevel)
    ensures !OpensLevel(n.kind) ==> r == c
  {
    if n.kind.FunctionDecl? then
      var (rest, params) := PopLastScopeLevel(c);
      rest.(findings := rest.findings + Sweep(params, ParameterLevel))
    else if CouldOpenNewScope(n.kind) then
      var (rest, block) := PopLastScopeLevel(c);
      rest.(findings := rest.findings + Sweep(block, BlockLevel))
    else c
  }

  // ---------------------------------------------------------------------
  // The walk
  // ---------------------------------------------------------------------

  /** What visiting a whole subtree may do to the context: the stack keeps
      its height, findings are only appended, every level keeps its names,
      and the levels below the innermost one keep their bindings, which
      only gain usages. The innermost level may gain or rebind names. */
  ghost predicate Extends(c: Context, r: Context) {
    && |r.levels| == |c.levels|
    && c.findings <= r.findings
    && (forall i :: 0 <= i < |c.levels| ==> c.levels[i].Keys <= r.levels[i].Keys)
    && (forall i :: 0 <= i < |c.levels| - 1 ==> r.levels[i].Keys == c.levels[i].Keys)
    && (forall i, k :: 0 <= i < |c.levels| - 1 && k in c.levels[i] ==>
          r.levels[i][k].decl == c.levels[i][k].decl && c.levels[i][k].uses <= r.levels[i][k].uses)
  }

  /** What a step may do to every level alike: the stack keeps its height,
      findings are only appended, and every level keeps its names and
      bindings, which only gain usages. */
  ghost predicate KeepsBindings(c: Context, r: Context) {
    && |r.levels| == |c.levels|
    && c.findings <= r.findings
    && (forall i :: 0 <= i < |c.levels| ==> r.levels[i].Keys == c.levels[i].Keys)
    && (forall i, k :: 0 <= i < |c.levels| && k in c.levels[i] ==>
          r.levels[i][k].decl == c.levels[i][k].decl && c.levels[i][k].uses <= r.levels[i][k].uses)
  }

  lemma KeepsBindingsTransitive(a: Context, b: Context, c: Context)
    requires KeepsBindings(a, b) && KeepsBindings(b, c)
    ensures KeepsBindings(a, c)
  {
  }

  lemma ExtendsTransitive(a: Context, b: Context, c: Context)
    requires Extends(a, b) && Extends(b, c)
    ensures Extends(a, c)
  {
  }

  /** Visits `n`: before-hook, children left to right, after-hook. Every
      level a node opens is closed again, so the stack has the same height
      afterwards (`VisitExtends` says what else is kept). */
  ghost function Visit(c: Context, n: Node, pos: Position): (r: Context)
    requires |c.levels| > 0
    ensures |r.levels| == |c.levels|
    decreases n, |n.children| + 1
  {
    var c1 := BeforeVisit(c, n, pos);
    var c2 := VisitChildren(c1, n, pos, 0);
    AfterVisit(c2, n)
  }

  /** Visiting a subtree extends the context; a node that opens a level
      leaves every level with the names it had. */
  lemma {:induction false} VisitExtends(c: Context, n: Node, pos: Position)
    requires |c.levels| > 0
    ensures Extends(c, Visit(c, n, pos))
    ensures OpensLevel(n.kind) ==> forall i :: 0 <= i < |c.levels| ==> Visit(c, n, pos).levels[i].Keys == c.levels[i].Keys
    decreases n, |n.children| + 1
  {
    var c1 := BeforeVisit(c, n, pos);
    var c2 := VisitChildren(c1, n, pos, 0);
    VisitChildrenExtends(c1, n, pos, 0);
    if OpensLevel(n.kind) {
      OpenThenCloseExtends(c, c1, c2, n);
    } else {
      BeforeVisitExtends(c, n, pos);
      ExtendsTransitive(c, c1, c2);
    }
  }

  /** Visiting siblings one after another extends the context. */
  lemma {:induction false} VisitChildrenExtends(c: Context, parent: Node, pos: Position, i: nat)
    requires |c.levels| > 0 && i <= |parent.children|
    ensures Extends(c, VisitChildren(c, parent, pos, i))
    decreases parent, |parent.children| - i
  {
    if i < |parent.children| {
      var c1 := Visit(c, parent.children[i], ChildPosition(parent.kind, pos, i));
      var r := VisitChildren(c1, parent, pos, i + 1);
      assert VisitChildren(c, parent, pos, i) == r;
      VisitExtends(c, parent.children[i], ChildPosition(parent.kind, pos, i));
      VisitChildrenExtends(c1, parent, pos, i + 1);
      ExtendsTransitive(c, c1, r);
    }
  }

  /** At file level, visiting any subtree keeps the globals: the global
      level keeps its names and each binding its declaration, and the uses
      recorded on a global are never dropped. So a read of a global counts,
      wherever in the file it comes. */
  lemma {:induction false} VisitKeepsGlobals(c: Context, n: Node, pos: Position)
    requires |c.levels| == 1
    ensures KeepsBindings(c, Visit(c, n, pos))
    decreases n, |n.children| + 1
  {
    var c1 := BeforeVisit(c, n, pos);
    var c2 := VisitChildren(c1, n, pos, 0);
    if OpensLevel(n.kind) {
      VisitChildrenExtends(c1, n, pos, 0);
      assert c1.levels[0] == c.levels[0];
      assert AfterVisit(c2, n).levels == [c2.levels[0]];
    } else {
      BeforeVisitKeepsGlobals(c, n, pos);
      ChildrenKeepGlobals(c1, n, pos, 0);
      KeepsBindingsTransitive(c, c1, c2);
    }
  }

  lemma {:induction false} ChildrenKeepGlobals(c: Context, parent: Node, pos: Position, i: nat)
    requires |c.levels| == 1 && i <= |parent.children|
    ensures KeepsBindings(c, VisitChildren(c, parent, pos, i))
    decreases parent, |parent.children| - i
  {
    if i < |parent.children| {
      var c1 := Visit(c, parent.children[i], ChildPosition(parent.kind, pos, i));
      var r := VisitChildren(c1, parent, pos, i + 1);
      assert VisitChildren(c, parent, pos, i) == r;
      VisitKeepsGlobals(c, parent.children[i], ChildPosition(parent.kind, pos, i));
      ChildrenKeepGlobals(c1, parent, pos, i + 1);
      KeepsBindingsTransitive(c, c1, r);
    }
  }

  /** At file level a before-hook that opens no level defines nothing (the
      globals are already bound) and at most records a usage. */
  lemma BeforeVisitKeepsGlobals(c: Context, n: Node, pos: Position)
    requires |c.levels| == 1 && !OpensLevel(n.kind)
    ensures KeepsBindings(c, BeforeVisit(c, n, pos))
  {
    if n.kind.Identifier? && !IsFunctionOrMethodCall(pos) {
      UsageKeepsBindings(c, n.kind.ident);
    }
  }

  /** A before-hook that opens no level only defines names in the innermost
      level or records a usage. */
  lemma BeforeVisitExtends(c: Context, n: Node, pos: Position)
    requires |c.levels| > 0 && !OpensLevel(n.kind)
    ensures Extends(c, BeforeVisit(c, n, pos))
  {
    match n.kind
    case Declarations(_) =>
      if |c.levels| > 1 {
        DefinitionsExtend(c, SpecIdents(n.children));
      }
    case Declaration(_, ids) =>
      if |c.levels| > 1 {
        DefinitionsExtend(c, ids);
      }
    case Identifier(x) =>
      if !IsFunctionOrMethodCall(pos) {
        UsageExtends(c, x);
      }
    case LiteralExpr =>
    case CallOrConversion =>
    case OtherElement =>
  }

  /** Definitions touch only the innermost level, which keeps its names. */
  lemma DefinitionsExtend(c: Context, ids: seq<Ident>)
    requires |c.levels| > 0
    ensures Extends(c, AddDefinitions(c, ids))
  {
    var r := AddDefinitions(c, ids);
    var top := |c.levels| - 1;
    var level := PutAll(c.levels[top], ids);
    assert r.levels == c.levels[top := level];
    GrowTopExtends(c, level);
  }

  /** Replacing the innermost level by one with at least its names. */
  lemma GrowTopExtends(c: Context, level: Level)
    requires |c.levels| > 0 && c.levels[|c.levels| - 1].Keys <= level.Keys
    ensures Extends(c, c.(levels := c.levels[|c.levels| - 1 := level]))
  {
  }

  /** A read only adds a usage to an existing binding, or a finding. */
  lemma UsageExtends(c: Context, x: Ident)
    ensures Extends(c, AddUsage(c, x))
  {
    UsageKeepsBindings(c, x);
  }

  /** A read only adds a usage to a binding or reports the name. */
  lemma UsageKeepsBindings(c: Context, x: Ident)
    ensures KeepsBindings(c, AddUsage(c, x))
  {
    var r := AddUsage(c, x);
    match Innermost(c.levels, x.name)
    case Some(i) =>
      assert ResolvesTo(c.levels, x.name, i);
      forall j | 0 <= j < |c.levels| ensures r.levels[j].Keys == c.levels[j].Keys {
        if j != i { assert r.levels[j] == c.levels[j]; }
      }
      forall j, k | 0 <= j < |c.levels| && k in c.levels[j]
        ensures r.levels[j][k].decl == c.levels[j][k].decl && c.levels[j][k].uses <= r.levels[j][k].uses
      {
        if j != i {
          assert r.levels[j] == c.levels[j];
        } else if k != x.name {
          assert r.levels[j][k] == c.levels[j][k];
        }
      }
    case None =>
      assert r.levels == c.levels;
  }

  /** Opening a level, visiting the children and closing it again leaves
      every enclosing level with the names it had. */
  lemma OpenThenCloseExtends(c: Context, c1: Context, c2: Context, n: Node)
    requires OpensLevel(n.kind)
    requires |c1.levels| == |c.levels| + 1 && c1.levels[..|c.levels|] == c.levels
    requires c1.findings == c.findings
    requires Extends(c1, c2)
    ensures Extends(c, AfterVisit(c2, n))
    ensures forall i :: 0 <= i < |c.levels| ==> AfterVisit(c2, n).levels[i].Keys == c.levels[i].Keys
  {
    var r := AfterVisit(c2, n);
    forall i | 0 <= i < |c.levels| ensures c2.levels[i].Keys == c.levels[i].Keys {
      assert c1.levels[i] == c.levels[i];
    }
    forall i, k | 0 <= i < |c.levels| && k in c.levels[i]
      ensures r.levels[i][k].decl == c.levels[i][k].decl && c.levels[i][k].uses <= r.levels[i][k].uses
    {
      assert c1.levels[i] == c.levels[i];
      assert r.levels[i] == c2.levels[i];
    }
  }

  /** Visits the children of `parent` from index `i` on. */
  ghost function VisitChildren(c: Context, parent: Node, pos: Position, i: nat): (r: Context)
    requires |c.levels| > 0 && i <= |parent.children|
    ensures |r.levels| == |c.levels|
    decreases parent, |parent.children| - i
  {
    if i == |parent.children| then c
    else
      var c1 := Visit(c, parent.children[i], ChildPosition(parent.kind, pos, i));
      VisitChildren(c1, parent, pos, i + 1)
  }

  /** One step of the walk: a node that opens no level is its before-hook
      followed by its children. */
  lemma VisitNonOpening(c: Context, n: Node, pos: Position)
    requires |c.levels| > 0 && !OpensLevel(n.kind)
    ensures Visit(c, n, pos) == VisitChildren(BeforeVisit(c, n, pos), n, pos, 0)
  {
  }

  /** A node without children that opens no level is its before-hook alone. */
  lemma VisitLeaf(c: Context, n: Node, pos: Position)
    requires |c.levels| > 0 && !OpensLevel(n.kind) && n.children == []
    ensures Visit(c, n, pos) == BeforeVisit(c, n, pos)
  {
    VisitNonOpening(c, n, pos);
  }

  /** One step of the walk: a node that opens a level closes it again
      after its children. */
  lemma VisitOpening(c: Context, n: Node, pos: Position)
    requires |c.levels| > 0 && OpensLevel(n.kind)
    ensures Visit(c, n, pos) == AfterVisit(VisitChildren(BeforeVisit(c, n, pos), n, pos, 0), n)
  {
  }

  /** No child left to visit. */
  lemma VisitChildrenEnd(c: Context, parent: Node, pos: Position)
    requires |c.levels| > 0
    ensures VisitChildren(c, parent, pos, |parent.children|) == c
  {
  }

  /** One child visited, the rest still to go. */
  lemma VisitChildrenStep(c: Context, parent: Node, pos: Position, i: nat)
    requires |c.levels| > 0 && i < |parent.children|
    ensures VisitChildren(c, parent, pos, i)
      == VisitChildren(Visit(c, parent.children[i], ChildPosition(parent.kind, pos, i)), parent, pos, i + 1)
  {
  }

  // ---------------------------------------------------------------------
  // The file
  // ---------------------------------------------------------------------

  /** The identifiers bound by the top-level groups of kind `dk`. */
  function TopLevelIdents(children: seq<Node>, dk: DeclKind): (r: seq<Ident>)
    ensures forall x :: x in r <==>
      exists j :: 0 <= j < |children| && children[j].kind == Declarations(dk) && x in SpecIdents(children[j].children)
  {
    if children == [] then []
    else
      var rest := TopLevelIdents(children[1..], dk);
      assert forall j :: 1 <= j < |children| ==> children[j] == children[1..][j - 1];
      var first := if children[0].kind == Declarations(dk) then SpecIdents(children[0].children) else [];
      assert forall x :: x in first + rest <==> x in first || x in rest;
      assert forall x, j :: 1 <= j < |children| && children[j].kind == Declarations(dk) && x in SpecIdents(children[j].children) ==>
        x in rest by {
        forall x, j | 1 <= j < |children| && children[j].kind == Declarations(dk) && x in SpecIdents(children[j].children)
          ensures x in rest
        {
          assert children[1..][j - 1] == children[j];
        }
      }
      first + rest
  }

  /** `getGlobalVariables`: every top-level constant, then every top-level
      variable, each put into one map (a later name replaces an earlier one). */
  function GlobalVariables(file: GoFile): (r: Level)
    ensures r.Keys == NamesOf(TopLevelIdents(file.children, ConstDecl) + TopLevelIdents(file.children, VarDecl))
    ensures forall k :: k in r ==> !r[k].IsUsed() && r[k].decl.name == k
  {
    LevelOf(TopLevelIdents(file.children, ConstDecl) + TopLevelIdents(file.children, VarDecl))
  }

  /** The file's before-hook: a fresh context holding the globals. */
  function BeforeVisitFile(file: GoFile): (c: Context)
    ensures |c.levels| == 1 && c.findings == []
    ensures c.levels[0].Keys == NamesOf(TopLevelIdents(file.children, ConstDecl) + TopLevelIdents(file.children, VarDecl))
    ensures forall k :: k in c.levels[0] ==> !c.levels[0][k].IsUsed() && c.levels[0][k].decl.name == k
  {
    Initial(GlobalVariables(file))
  }

  /** The context after the file's top-level elements have been visited
      (a file is neither a call nor a literal, so its children sit at the
      top position). */
  ghost function VisitFileBody(file: GoFile): (r: Context)
    ensures |r.levels| == 1
    ensures var globals := BeforeVisitFile(file).levels[0];
      && r.levels[0].Keys == globals.Keys
      && forall k :: k in globals ==> r.levels[0][k].decl == globals[k].decl && globals[k].uses <= r.levels[0][k].uses
  {
    ChildrenKeepGlobals(BeforeVisitFile(file), Node(OtherElement, file.children), TopPosition, 0);
    VisitChildren(BeforeVisitFile(file), Node(OtherElement, file.children), TopPosition, 0)
  }

  /** `afterVisitFile`: one unused-global finding (weak severity) per
      unused binding of the global level, blank ones included, and no other. */
  ghost function UnusedGlobals(globals: Level): (r: seq<Finding>)
    ensures |r| == |ReportableKeys(globals, GlobalLevel)|
    ensures forall k :: k in globals && !globals[k].IsUsed() ==>
      Finding(UnusedGlobal, globals[k].decl.id, LikeUnusedSymbol) in r
    ensures forall f :: f in r ==>
      && f.category == UnusedGlobal && f.severity == LikeUnusedSymbol
      && exists k :: k in globals && !globals[k].IsUsed() && f == Finding(UnusedGlobal, globals[k].decl.id, LikeUnusedSymbol)
  {
    Sweep(globals, GlobalLevel)
  }

  /** The whole pass: the findings of the walk followed by one unused-global
      finding per unused binding left in the global level. */
  ghost function AnalyzeFile(file: GoFile): (r: seq<Finding>)
    ensures VisitFileBody(file).findings <= r
    ensures |r| == |VisitFileBody(file).findings| + |ReportableKeys(VisitFileBody(file).levels[0], GlobalLevel)|
    ensures forall f :: f in r[|VisitFileBody(file).findings|..] ==>
      f.category == UnusedGlobal && f.severity == LikeUnusedSymbol
    ensures var globals := VisitFileBody(file).levels[0];
      forall k :: k in globals && !globals[k].IsUsed() ==>
        Finding(UnusedGlobal, globals[k].decl.id, LikeUnusedSymbol) in r[|VisitFileBody(file).findings|..]
    ensures var globals := VisitFileBody(file).levels[0];
      forall f :: f in r[|VisitFileBody(file).findings|..] ==>
        exists k :: k in globals && !globals[k].IsUsed() && f == Finding(UnusedGlobal, globals[k].decl.id, LikeUnusedSymbol)
  {
    var body := VisitFileBody(file);
    var tail := UnusedGlobals(body.levels[0]);
    assert (body.findings + tail)[|body.findings|..] == tail;
    body.findings + tail
  }
}
