/** The scope tracker behind the variable-usage pass: a stack of
    name-to-binding maps (index 0 is the global level, the last index the
    innermost one) together with the findings appended so far. This is the
    `Context` class of GoVariableUsageStatVisitor, made a value. */
module Scopes {
  import opened GoSyntax

  /** What the tracker knows about one declared name: the declaring
      identifier and the anchors of the usages resolved to it so far. */
  datatype Binding = Binding(decl: Ident, uses: seq<nat>) {
    predicate IsUsed() {
      |uses| > 0
    }
  }

  /** A newly declared name: nothing resolved to it yet. */
  function Fresh(x: Ident): (b: Binding)
    ensures !b.IsUsed() && b.decl == x
  {
    Binding(x, [])
  }

  type Level = map<string, Binding>

  /** The highlight types the pass reports with. */
  datatype Severity = Error | LikeUnusedSymbol

  datatype Category = UnusedVariable | UnusedParameter | UnusedGlobal | UndefinedVariable

  /** A reported problem: what it is, where it is, and how it is shown.
      Message text and quick fixes are left to the host. */
  datatype Finding = Finding(category: Category, anchor: nat, severity: Severity)

  /** The severity each category is reported with. */
  function SeverityOf(c: Category): Severity {
    match c
    case UnusedVariable => Error
    case UnusedParameter => LikeUnusedSymbol
    case UnusedGlobal => LikeUnusedSymbol
    case UndefinedVariable => Error
  }

  datatype Context = Context(levels: seq<Level>, findings: seq<Finding>)

  /** A context whose only level holds the given globals and which has
      reported nothing yet. */
  function Initial(globals: Level): (c: Context)
    ensures |c.levels| == 1 && c.levels[0] == globals && c.findings == []
  {
    Context([globals], [])
  }

  // ---------------------------------------------------------------------
  // Pushing and popping levels
  // ---------------------------------------------------------------------

  /** Opens a level holding `seed`: an empty map for blocks, the parameter
      bindings for a function. */
  function AddScopeLevel(c: Context, seed: Level): (r: Context)
    ensures |r.levels| == |c.levels| + 1
    ensures r.levels[..|c.levels|] == c.levels && r.levels[|c.levels|] == seed
    ensures r.findings == c.findings
  {
    c.(levels := c.levels + [seed])
  }

  function AddNewScopeLevel(c: Context): (r: Context)
    ensures |r.levels| == |c.levels| + 1
    ensures r.levels[..|c.levels|] == c.levels && r.levels[|c.levels|] == map[]
    ensures r.findings == c.findings
  {
    AddScopeLevel(c, map[])
  }

  /** Removes and returns the innermost level. Popping an empty stack is a
      programming error in the walker, so it is excluded by the contract. */
  function PopLastScopeLevel(c: Context): (r: (Context, Level))
    requires |c.levels| > 0
    ensures |r.0.levels| == |c.levels| - 1
    ensures c.levels == r.0.levels + [r.1]
    ensures r.0.findings == c.findings
  {
    (c.(levels := c.levels[..|c.levels| - 1]), c.levels[|c.levels| - 1])
  }

  /** Pushing a level and popping it straight away gives back the context
      and the level that was pushed. */
  lemma PushThenPop(c: Context, seed: Level)
    ensures PopLastScopeLevel(AddScopeLevel(c, seed)) == (c, seed)
  {
  }

  // ---------------------------------------------------------------------
  // Definitions
  // ---------------------------------------------------------------------

  /** The last identifier in `ids` whose name is `k`. */
  function LastNamed(ids: seq<Ident>, k: string): (r: Ident)
    requires k in NamesOf(ids)
    ensures r.name == k
    ensures exists i :: 0 <= i < |ids| && ids[i] == r && forall j :: i < j < |ids| ==> ids[j].name != k
  {
    var n := |ids| - 1;
    if ids[n].name == k then ids[n]
    else
      assert k in NamesOf(ids[..n]) by {
        var i :| 0 <= i < |ids| && ids[i].name == k;
        assert ids[..n][i] == ids[i];
      }
      var r := LastNamed(ids[..n], k);
      assert forall i :: 0 <= i < n ==> ids[..n][i] == ids[i];
      r
  }

  /** `put` of every identifier of `ids`, left to right, into `level`. */
  function PutAll(level: Level, ids: seq<Ident>): (r: Level)
    ensures r.Keys == level.Keys + NamesOf(ids)
    ensures forall k :: k in level && k !in NamesOf(ids) ==> r[k] == level[k]
    ensures forall k :: k in NamesOf(ids) ==> r[k] == Fresh(LastNamed(ids, k))
  {
    if ids == [] then level
    else
      var n := |ids| - 1;
      var x := ids[n];
      var before := PutAll(level, ids[..n]);
      NamesOfSnoc(ids);
      before[x.name := Fresh(x)]
  }

  /** The names of a non-empty list: those before its last element, and
      the last one's. */
  lemma NamesOfSnoc(ids: seq<Ident>)
    requires ids != []
    ensures NamesOf(ids) == NamesOf(ids[..|ids| - 1]) + {ids[|ids| - 1].name}
  {
    var n := |ids| - 1;
    forall k | k in NamesOf(ids) ensures k in NamesOf(ids[..n]) + {ids[n].name} {
      var i :| 0 <= i < |ids| && ids[i].name == k;
      if i < n { assert ids[..n][i] == ids[i]; }
    }
    forall k | k in NamesOf(ids[..n]) ensures k in NamesOf(ids) {
      var i :| 0 <= i < n && ids[..n][i].name == k;
      assert ids[i] == ids[..n][i];
    }
  }

  /** A level whose bindings are exactly the given identifiers, later ones
      replacing earlier ones of the same name (the parameter seeding of a
      function and the seeding of the global level). */
  function LevelOf(ids: seq<Ident>): (r: Level)
    ensures r.Keys == NamesOf(ids)
    ensures forall k :: k in r ==> r[k] == Fresh(LastNamed(ids, k)) && r[k].decl.name == k
  {
    PutAll(map[], ids)
  }

  /** `addDefinition`: binds `x` in the innermost level, replacing a binding
      of the same name there; no other level and no finding changes. */
  function AddDefinition(c: Context, x: Ident): (r: Context)
    requires |c.levels| > 0
    ensures |r.levels| == |c.levels| && r.findings == c.findings
    ensures forall j :: 0 <= j < |c.levels| - 1 ==> r.levels[j] == c.levels[j]
    ensures var top := |c.levels| - 1;
      && r.levels[top].Keys == c.levels[top].Keys + {x.name}
      && r.levels[top][x.name] == Fresh(x)
      && forall k :: k in c.levels[top] && k != x.name ==> r.levels[top][k] == c.levels[top][k]
  {
    var top := |c.levels| - 1;
    c.(levels := c.levels[top := c.levels[top][x.name := Fresh(x)]])
  }

  /** Defines every identifier of `ids` in order. */
  function AddDefinitions(c: Context, ids: seq<Ident>): (r: Context)
    requires |c.levels| > 0
    ensures |r.levels| == |c.levels| && r.findings == c.findings
    ensures forall j :: 0 <= j < |c.levels| - 1 ==> r.levels[j] == c.levels[j]
    ensures r.levels[|c.levels| - 1] == PutAll(c.levels[|c.levels| - 1], ids)
  {
    if ids == [] then c
    else
      var n := |ids| - 1;
      var before := AddDefinitions(c, ids[..n]);
      AddDefinition(before, ids[n])
  }

  /** A level opened, filled with definitions and popped again holds exactly
      those definitions, and the stack below it is as it was. */
  lemma {:induction false} PoppedLevelHoldsItsDefinitions(c: Context, ids: seq<Ident>)
    ensures var (rest, popped) := PopLastScopeLevel(AddDefinitions(AddNewScopeLevel(c), ids));
      && rest == c
      && popped.Keys == NamesOf(ids)
      && forall k :: k in popped ==> popped[k] == Fresh(LastNamed(ids, k))
  {
    var pushed := AddNewScopeLevel(c);
    var filled := AddDefinitions(pushed, ids);
    var (rest, popped) := PopLastScopeLevel(filled);
    assert popped == PutAll(map[], ids);
    assert rest.levels == c.levels by {
      assert |rest.levels| == |c.levels|;
      forall j | 0 <= j < |c.levels| ensures rest.levels[j] == c.levels[j] {
        assert filled.levels[j] == pushed.levels[j];
      }
    }
  }

  // ---------------------------------------------------------------------
  // Usages
  // ---------------------------------------------------------------------

  /** `name` is bound at level `i` and at no level inside it. */
  ghost predicate ResolvesTo(levels: seq<Level>, name: string, i: int) {
    && 0 <= i < |levels|
    && name in levels[i]
    && forall j :: i < j < |levels| ==> name !in levels[j]
  }

  /** The innermost level that binds `name`, searching from the top down. */
  function Innermost(levels: seq<Level>, name: string): (r: Option<nat>)
    ensures r.Some? ==> ResolvesTo(levels, name, r.value)
    ensures r.None? <==> forall j :: 0 <= j < |levels| ==> name !in levels[j]
  {
    if levels == [] then None
    else if name in levels[|levels| - 1] then Some(|levels| - 1)
    else
      var r := Innermost(levels[..|levels| - 1], name);
      assert forall j :: 0 <= j < |levels| - 1 ==> levels[..|levels| - 1][j] == levels[j];
      r
  }

  /** At most one level can be the one a name resolves to. */
  lemma ResolutionIsUnique(levels: seq<Level>, name: string, i: int, j: int)
    requires ResolvesTo(levels, name, i) && ResolvesTo(levels, name, j)
    ensures i == j
  {
  }

  /** `addUsage`: records the usage on the innermost binding of the name,
      or reports the name undefined when no level binds it. */
  function AddUsage(c: Context, x: Ident): (r: Context)
    ensures |r.levels| == |c.levels|
    ensures (forall j :: 0 <= j < |c.levels| ==> x.name !in c.levels[j]) <==>
      r.findings == c.findings + [Finding(UndefinedVariable, x.id, SeverityOf(UndefinedVariable))]
    ensures (forall j :: 0 <= j < |c.levels| ==> x.name !in c.levels[j]) ==> r.levels == c.levels
    ensures forall i :: ResolvesTo(c.levels, x.name, i) ==>
      && r.findings == c.findings
      && r.levels[i].Keys == c.levels[i].Keys
      && r.levels[i][x.name] == c.levels[i][x.name].(uses := c.levels[i][x.name].uses + [x.id])
      && (forall k :: k in c.levels[i] && k != x.name ==> r.levels[i][k] == c.levels[i][k])
      && (forall j :: 0 <= j < |c.levels| && j != i ==> r.levels[j] == c.levels[j])
  {
    match Innermost(c.levels, x.name)
    case Some(i) =>
      var b := c.levels[i][x.name];
      c.(levels := c.levels[i := c.levels[i][x.name := b.(uses := b.uses + [x.id])]])
    case None =>
      c.(findings := c.findings + [Finding(UndefinedVariable, x.id, Error)])
  }

  // ---------------------------------------------------------------------
  // End-of-scope sweep
  // ---------------------------------------------------------------------

  /** Which kind of level is being closed: it decides the category. */
  datatype LevelKind = BlockLevel | ParameterLevel | GlobalLevel

  function CategoryOf(k: LevelKind): Category {
    match k
    case BlockLevel => UnusedVariable
    case ParameterLevel => UnusedParameter
    case GlobalLevel => UnusedGlobal
  }

  /** The finding for one unused binding of a level of kind `k`, if any:
      blank variables and parameters are exempt, globals are not. */
  function UnusedFindings(b: Binding, k: LevelKind): (r: seq<Finding>)
    ensures |r| <= 1
  {
    if b.IsUsed() then []
    else match k
      case BlockLevel => if IsBlank(b.decl) then [] else [Finding(UnusedVariable, b.decl.id, Error)]
      case ParameterLevel => if !IsBlank(b.decl) then [Finding(UnusedParameter, b.decl.id, LikeUnusedSymbol)] else []
      case GlobalLevel => [Finding(UnusedGlobal, b.decl.id, LikeUnusedSymbol)]
  }

  /** The bindings of a level of kind `k` that the sweep reports. */
  ghost predicate Reportable(b: Binding, k: LevelKind) {
    !b.IsUsed() && (k == GlobalLevel || !IsBlank(b.decl))
  }

  ghost function ReportableKeys(level: Level, k: LevelKind): set<string> {
    set n | n in level && Reportable(level[n], k)
  }

  ghost predicate Distinct<T>(s: seq<T>) {
    forall i, j :: 0 <= i < j < |s| ==> s[i] != s[j]
  }

  /** The keys of a set in some order. The order is left unspecified, as
      the iteration order of the source's hash maps is. */
  ghost function Enumerate(s: set<string>): (r: seq<string>)
    ensures forall k :: k in r <==> k in s
    ensures Distinct(r)
  {
    if s == {} then []
    else
      var k :| k in s;
      [k] + Enumerate(s - {k})
  }

  ghost function SweepKeys(level: Level, keys: seq<string>, k: LevelKind): seq<Finding>
    requires forall n :: n in keys ==> n in level
  {
    if keys == [] then []
    else UnusedFindings(level[keys[0]], k) + SweepKeys(level, keys[1..], k)
  }

  /** Reports every unused binding of a closed level, once each, with the
      category and severity the level kind calls for. */
  ghost function Sweep(level: Level, k: LevelKind): (r: seq<Finding>)
    ensures forall f :: f in r <==>
      exists n :: n in level && Reportable(level[n], k) &&
        f == Finding(CategoryOf(k), level[n].decl.id, SeverityOf(CategoryOf(k)))
    ensures |r| == |ReportableKeys(level, k)|
  {
    var keys := Enumerate(level.Keys);
    SweepKeysMembers(level, keys, k);
    SweepKeysCount(level, keys, k);
    assert ReportableAmong(level, keys, k) == ReportableKeys(level, k);
    SweepKeys(level, keys, k)
  }

  lemma {:induction false} SweepKeysMembers(level: Level, keys: seq<string>, k: LevelKind)
    requires forall n :: n in keys ==> n in level
    ensures forall f :: f in SweepKeys(level, keys, k) <==>
      exists n :: n in keys && Reportable(level[n], k) &&
        f == Finding(CategoryOf(k), level[n].decl.id, SeverityOf(CategoryOf(k)))
  {
    if keys != [] {
      SweepKeysMembers(level, keys[1..], k);
      forall f ensures f in SweepKeys(level, keys, k) <==>
        exists n :: n in keys && Reportable(level[n], k) &&
          f == Finding(CategoryOf(k), level[n].decl.id, SeverityOf(CategoryOf(k)))
      {
        if f in SweepKeys(level, keys, k) {
          if f in UnusedFindings(level[keys[0]], k) {
            assert keys[0] in keys;
          } else {
            var n :| n in keys[1..] && Reportable(level[n], k) &&
              f == Finding(CategoryOf(k), level[n].decl.id, SeverityOf(CategoryOf(k)));
            assert n in keys;
          }
        }
        if exists n :: n in keys && Reportable(level[n], k) &&
             f == Finding(CategoryOf(k), level[n].decl.id, SeverityOf(CategoryOf(k))) {
          var n :| n in keys && Reportable(level[n], k) &&
            f == Finding(CategoryOf(k), level[n].decl.id, SeverityOf(CategoryOf(k)));
          if n != keys[0] {
            assert n in keys[1..];
          }
        }
      }
    }
  }

  /** The reportable names among `keys`. */
  ghost function ReportableAmong(level: Level, keys: seq<string>, k: LevelKind): set<string> {
    set n | n in keys && n in level && Reportable(level[n], k)
  }

  lemma {:induction false} SweepKeysCount(level: Level, keys: seq<string>, k: LevelKind)
    requires forall n :: n in keys ==> n in level
    requires Distinct(keys)
    ensures |SweepKeys(level, keys, k)| == |ReportableAmong(level, keys, k)|
  {
    if keys == [] {
      assert ReportableAmong(level, keys, k) == {};
    } else {
      var rest := keys[1..];
      SweepKeysCount(level, rest, k);
      assert keys[0] !in rest;
      ReportableAmongCons(level, keys, k);
    }
  }

  lemma ReportableAmongCons(level: Level, keys: seq<string>, k: LevelKind)
    requires keys != [] && keys[0] in level
    ensures ReportableAmong(level, keys, k) ==
      ReportableAmong(level, keys[1..], k) + (if Reportable(level[keys[0]], k) then {keys[0]} else {})
  {
    assert forall n :: n in keys <==> n == keys[0] || n in keys[1..];
  }

  /** Closing a block or parameter level reports only non-blank, unused
      bindings. */
  lemma BlankLocalsNeverReported(level: Level, k: LevelKind)
    requires k != GlobalLevel
    ensures forall f :: f in Sweep(level, k) ==>
      exists n :: n in level && !IsBlank(level[n].decl) && !level[n].IsUsed() && f.anchor == level[n].decl.id
  {
  }

  /** Closing the global level reports an unused blank global too. */
  lemma BlankGlobalsReported(level: Level, n: string)
    requires n in level && !level[n].IsUsed() && IsBlank(level[n].decl)
    ensures Finding(UnusedGlobal, level[n].decl.id, LikeUnusedSymbol) in Sweep(level, GlobalLevel)
  {
  }
}
