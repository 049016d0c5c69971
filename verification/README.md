# Go plugin analyses: variable usage and function contracts

This project models two static analyses of the Go plugin for IntelliJ
IDEA. Both work on an already-parsed Go syntax tree and report findings.
The project proves properties of those models in Dafny.

1. **Variable-usage pass** (`GoVariableUsageStatVisitor`). The pass keeps
   a stack of scope levels, each a map from a name to its binding.
   - The bottom level holds the file's top-level constants and variables.
   - An `if`, `for` or block statement pushes an empty level.
   - A function-like node pushes a level seeded with its parameters.
   - Inside a function, a const or var spec binds its names in the top level.
   - A name read resolves from the innermost level outwards. A read that
     resolves nowhere is reported as an undefined variable.
   - The name of a called function is not a read.
   - Closing a level reports each unused binding in it: as an unused
     variable (error), an unused parameter (weak warning) or an unused
     global (weak warning).

   Modules `GoSyntax`, `Scopes` (the scope stack and its operations) and
   `VariableUsage` (the pre-order/post-order walk over a tagged `Node`
   tree). `UsageProperties` proves behaviour on small tree shapes.

2. **Function-contract checker** (`FunctionDeclarationInspection`). It
   runs five independent checks on each function, method and function
   literal:
   - missing terminating `return` or `panic`;
   - duplicate parameter names;
   - result names that redeclare parameters;
   - return statements with the wrong number of values;
   - misplaced variadic markers.

   Modules `FunctionInspection` (the five checks), `InspectionProperties`
   (the return-count check across statements) and `FileInspection` (which
   nodes of a file get checked).

Traversal order of Java hash maps is unspecified. The end-of-scope sweep
(`Scopes.Sweep`) therefore enumerates keys in an order the model leaves
open. Its contract fixes only the set of findings and their number.

The number of values a single returned expression yields comes from a
helper whose code is not part of this model. It is the parameter
`count: ResultCounter`, where `None` stands for the unknown count.

### Modelling decisions

- **Unused globals.** `unusedVariable` and `unusedParameter` skip blank
  bindings. `unusedGlobalVariable`
  (`GoVariableUsageStatVisitor.java:221-223`) has no blank test, and the
  model follows it: an unused blank global is reported
  (`Scopes.BlankGlobalsReported`).
- **Function literals open a parameter level.** A function literal is
  passed to `checkFunction(GoFunctionDeclaration)` in
  `FunctionDeclarationInspection.java`, so a literal is a
  `GoFunctionDeclaration`. The `instanceof GoFunctionDeclaration` test of
  the usage pass therefore catches literals too. Functions, methods and
  literals are one node kind, `FunctionDecl`, and each opens and closes
  its own parameter level.
- **Const and var groups define twice.** The hook of a `var (...)` or
  `const (...)` group defines the names of all its specs. Each spec is
  then visited, with its initializers, and its own hook defines its names
  again, fresh. Inside a function the model does the same. So a read in
  an earlier spec's initializer of a name a later spec declares is lost:
  in `var ( a = b; b = 1 )` the read of `b` lands on the group's binding
  of `b`, which the second spec then replaces.
- **File-level definitions.** At file level the model leaves the
  already-bound globals alone (`VariableUsage.DefineSpecs`). The code
  re-binds them; see "Findings".

## Model

| member | source | states |
|---|---|---|
| Scopes.Initial | src/ro/redeul/google/go/findUsages/GoVariableUsageStatVisitor.java:191-195 | the context starts with exactly one level, the globals, and no findings |
| Scopes.AddScopeLevel | src/ro/redeul/google/go/findUsages/GoVariableUsageStatVisitor.java:146-164 | pushing a level adds exactly one level on top holding the seed; the levels below and the findings are unchanged |
| Scopes.AddNewScopeLevel | src/ro/redeul/google/go/findUsages/GoVariableUsageStatVisitor.java:197-201 | opening a block level adds exactly one empty level on top; the levels below and the findings are unchanged |
| Scopes.PopLastScopeLevel | src/ro/redeul/google/go/findUsages/GoVariableUsageStatVisitor.java:203-205 | popping returns the top level and leaves a stack one shorter that, extended by the popped level, is the old stack |
| Scopes.PushThenPop | src/ro/redeul/google/go/findUsages/GoVariableUsageStatVisitor.java:197-205 | push followed by pop gives back the original context and the pushed level |
| Scopes.PutAll | src/ro/redeul/google/go/findUsages/GoVariableUsageStatVisitor.java:158-162 | putting identifiers into a map adds exactly their names, leaves other keys alone, and binds each name to the last identifier with that name |
| Scopes.LevelOf | src/ro/redeul/google/go/findUsages/GoVariableUsageStatVisitor.java:166-184 | a level built from identifiers has exactly their names as keys, each bound fresh (unused) to the last identifier of that name |
| Scopes.AddDefinition | src/ro/redeul/google/go/findUsages/GoVariableUsageStatVisitor.java:234-236 | a definition binds the name fresh in the top level only, replacing a same-name binding there; every other level, every other key, the stack height and the findings are unchanged |
| Scopes.AddDefinitions | src/ro/redeul/google/go/findUsages/GoVariableUsageStatVisitor.java:106-116 | defining a spec's identifiers changes only the top level, which becomes the old top level with the identifiers put in order |
| Scopes.PoppedLevelHoldsItsDefinitions | src/ro/redeul/google/go/findUsages/GoVariableUsageStatVisitor.java:197-205 | a level pushed, filled with definitions and popped holds exactly those definitions, and the stack returns to its previous contents |
| Scopes.Innermost | src/ro/redeul/google/go/findUsages/GoVariableUsageStatVisitor.java:239-245 | the top-down search finds the innermost level binding the name, and finds none iff no level binds it |
| Scopes.ResolutionIsUnique | src/ro/redeul/google/go/findUsages/GoVariableUsageStatVisitor.java:239-245 | a name resolves to at most one level |
| Scopes.AddUsage | src/ro/redeul/google/go/findUsages/GoVariableUsageStatVisitor.java:238-248 | a resolved read appends the usage to the innermost binding only, with every other binding, level and finding unchanged; an unresolved read appends exactly one undefined-variable finding with error severity and changes no level, and only then is a finding added |
| Scopes.Sweep | src/ro/redeul/google/go/findUsages/GoVariableUsageStatVisitor.java:207-223 | closing a level reports each unused binding that the level kind does not exempt, exactly once, with the category and severity of the level kind, in any order |
| Scopes.BlankLocalsNeverReported | src/ro/redeul/google/go/findUsages/GoVariableUsageStatVisitor.java:207-219 | closing a block or parameter level reports only non-blank, unused bindings |
| Scopes.BlankGlobalsReported | src/ro/redeul/google/go/findUsages/GoVariableUsageStatVisitor.java:221-223 | an unused blank global is still reported as an unused global |
| VariableUsage.SpecIdents | src/ro/redeul/google/go/findUsages/GoVariableUsageStatVisitor.java:60-71 | a declaration group defines exactly the identifiers of its specs |
| VariableUsage.DefineSpecs | src/ro/redeul/google/go/findUsages/GoVariableUsageStatVisitor.java:106-116 | inside a function, a spec's names are put into the innermost level in order and nothing else changes; at file level the context is left as it is, because the globals are already bound from the same declarations (the corrected behaviour, see Findings) |
| VariableUsage.BeforeVisit | src/ro/redeul/google/go/findUsages/GoVariableUsageStatVisitor.java:56-89 | the before-hook of a function-like node pushes one level whose keys are the parameter names, all unused; an if/for/block pushes one empty level; a const or var group or spec inside a function puts its names into the innermost level, keeping the lower levels and the findings, and at file level changes nothing; a callee name changes nothing and any other identifier is a read; a literal expression, call or other element changes nothing |
| VariableUsage.AfterVisit | src/ro/redeul/google/go/findUsages/GoVariableUsageStatVisitor.java:91-104 | the after-hook of a level-opening node pops exactly one level and appends its sweep, as parameters for a function-like node and as variables otherwise; any other node changes nothing |
| VariableUsage.Visit | src/ro/redeul/google/go/findUsages/GoVariableUsageStatVisitor.java:56-104 | visiting a node runs its before-hook, its children and its after-hook, and every level it opens is closed again, so the stack has the same height afterwards |
| VariableUsage.VisitChildren | src/ro/redeul/google/go/findUsages/GoVariableUsageStatVisitor.java:56-104 | visiting a run of siblings left to right leaves the stack height unchanged |
| VariableUsage.VisitExtends | src/ro/redeul/google/go/findUsages/GoVariableUsageStatVisitor.java:56-104 | visiting any subtree keeps the stack height and only appends findings; enclosing levels keep their names and bindings, which only gain usages; a node that opens a level leaves every level's names as they were |
| VariableUsage.OpenThenCloseExtends | src/ro/redeul/google/go/findUsages/GoVariableUsageStatVisitor.java:139-145 | a level opened before the children and closed after them leaves the enclosing levels with the names they had |
| VariableUsage.VisitChildrenExtends | src/ro/redeul/google/go/findUsages/GoVariableUsageStatVisitor.java:56-104 | visiting siblings one after another keeps the stack height and only appends findings; enclosing levels keep their names and bindings, which only gain usages |
| VariableUsage.UsageKeepsBindings | src/ro/redeul/google/go/findUsages/GoVariableUsageStatVisitor.java:238-248 | a read keeps every level's names and bindings, only adding a usage or a finding |
| VariableUsage.VisitKeepsGlobals | src/ro/redeul/google/go/findUsages/GoVariableUsageStatVisitor.java:56-116 | at file level, visiting any subtree keeps the global level's names and each global's declaration, and never drops a use recorded on a global |
| VariableUsage.ChildrenKeepGlobals | src/ro/redeul/google/go/findUsages/GoVariableUsageStatVisitor.java:56-104 | at file level, visiting a run of siblings keeps the globals and their uses in the same way |
| VariableUsage.GlobalVariables | src/ro/redeul/google/go/findUsages/GoVariableUsageStatVisitor.java:166-184 | the global level holds exactly the names of all top-level constants and variables, each unused |
| VariableUsage.BeforeVisitFile | src/ro/redeul/google/go/findUsages/GoVariableUsageStatVisitor.java:44-46 | the file starts with one level holding the top-level const and var names, each bound unused to its own identifier, and no findings |
| VariableUsage.VisitFileBody | src/ro/redeul/google/go/findUsages/GoVariableUsageStatVisitor.java:44-104 | after the walk over the file's elements the global level holds exactly the globals the file started with, each bound to its own declaration, with every use recorded on it kept |
| VariableUsage.UnusedGlobals | src/ro/redeul/google/go/findUsages/GoVariableUsageStatVisitor.java:48-54 | closing the global level yields one weak unused-global finding for each unused binding, blank ones included, and no other finding |
| VariableUsage.AnalyzeFile | src/ro/redeul/google/go/findUsages/GoVariableUsageStatVisitor.java:44-54 | the pass's findings are the walk's findings followed by exactly one unused-global finding (weak severity) per unused binding left in the global level, blank ones included, and nothing else |
| UsageProperties.CalleeNameIffFirstOfCall | src/ro/redeul/google/go/findUsages/GoVariableUsageStatVisitor.java:125-133 | an identifier is a callee name, and so not a read, iff its parent is a literal expression that is the first child of a call or conversion |
| UsageProperties.CalleeIsNotAUsage | src/ro/redeul/google/go/findUsages/GoVariableUsageStatVisitor.java:118-133 | the name of a called function is neither recorded as a usage nor reported undefined, whatever the scopes hold |
| UsageProperties.LiteralOfIdentifier | src/ro/redeul/google/go/findUsages/GoVariableUsageStatVisitor.java:125-133 | an identifier in a literal expression is a read unless the literal is the first child of a call |
| UsageProperties.ArgumentIsAUsage | src/ro/redeul/google/go/findUsages/GoVariableUsageStatVisitor.java:118-133 | a name passed as a call argument is looked up like any other read |
| UsageProperties.InnerDeclarationShadowsOuter | src/ro/redeul/google/go/findUsages/GoVariableUsageStatVisitor.java:238-245 | in `{ var x; x }` the read resolves to the inner `x`: outer same-name bindings stay untouched and nothing is reported |
| UsageProperties.ReadInBlockReachesEnclosingScopes | src/ro/redeul/google/go/findUsages/GoVariableUsageStatVisitor.java:238-248 | a read in a block without its own binding acts on the enclosing scopes exactly as a read outside the block would |
| UsageProperties.EmptyScopeLeavesContext | src/ro/redeul/google/go/findUsages/GoVariableUsageStatVisitor.java:76-102 | an if, for or block statement with nothing inside opens one level and closes it again, leaving the scopes and the findings as they were |
| UsageProperties.UnusedLocalReported | src/ro/redeul/google/go/findUsages/GoVariableUsageStatVisitor.java:97-102 | `{ var x }` reports `x` once as an unused variable with error severity when the block closes, unless `x` is blank |
| UsageProperties.UnusedParameterReported | src/ro/redeul/google/go/findUsages/GoVariableUsageStatVisitor.java:139-164 | an unused parameter is reported once with weak severity when its function closes, unless it is blank |
| UsageProperties.SweepOfSingleton | src/ro/redeul/google/go/findUsages/GoVariableUsageStatVisitor.java:207-223 | a level with one unused binding yields exactly its one finding, or none when exempt |
| UsageProperties.GlobalReadLostAsWritten | src/ro/redeul/google/go/findUsages/GoVariableUsageStatVisitor.java:106-116 | as written, a read marks the seeded global used, the file-level definition re-binds it fresh, and the sweep of the global level then reports it as an unused global |
| UsageProperties.GlobalReadKeptWhenCorrected | src/ro/redeul/google/go/findUsages/GoVariableUsageStatVisitor.java:56-69 | with the correction, a file-level var group leaves the read global, and the use recorded on it, as they were, and the sweep of the global level reports nothing |
| FunctionInspection.HasReturnAtTheEndIffTerminator | src/ro/redeul/google/go/inspection/FunctionDeclarationInspection.java:141-172 | the block test holds iff the block is closed and its last statement is a return or a `panic` call under some number of labels |
| FunctionInspection.PanicEndsBody | src/ro/redeul/google/go/inspection/FunctionDeclarationInspection.java:147-172 | a closed body ending in a labelled `panic(...)` has its return at the end; a body ending in a call of another builtin or in a builtin call without a base expression, or one without its closing brace, does not |
| FunctionInspection.MissingReturn | src/ro/redeul/google/go/inspection/FunctionDeclarationInspection.java:67-74 | one missing-return problem, at the block's last child, iff results are declared, a body exists and the body does not end in a possibly labelled return or panic |
| FunctionInspection.RepeatsFrom | src/ro/redeul/google/go/inspection/FunctionDeclarationInspection.java:77-91 | the loop with its `seen` set finds exactly the positions of non-blank names that occurred earlier, in increasing order |
| FunctionInspection.DuplicateProblems | src/ro/redeul/google/go/inspection/FunctionDeclarationInspection.java:76-92 | one duplicate-argument problem for each non-blank parameter whose name occurred before it, and no other; first occurrences and blanks are never reported |
| FunctionInspection.ParameterNames | src/ro/redeul/google/go/inspection/FunctionDeclarationInspection.java:174-184 | the name list holds exactly the names of the non-blank parameters |
| FunctionInspection.RedeclaredFrom | src/ro/redeul/google/go/inspection/FunctionDeclarationInspection.java:97-104 | the loop over the results finds exactly the positions of results that redeclare a parameter, in increasing order |
| FunctionInspection.RedeclaredProblems | src/ro/redeul/google/go/inspection/FunctionDeclarationInspection.java:94-105 | one redeclared problem for each result identifier that is non-blank and equal to a non-blank parameter name, and no other |
| FunctionInspection.ExpectedResCount | src/ro/redeul/google/go/inspection/FunctionDeclarationInspection.java:195-204 | the expected count is at least the number of result groups and at least the number of result names |
| FunctionInspection.NamedIffSomeResultName | src/ro/redeul/google/go/inspection/FunctionDeclarationInspection.java:199-203 | the function has named returns iff its result list names at least one identifier |
| FunctionInspection.AllNamedCountsNames | src/ro/redeul/google/go/inspection/FunctionDeclarationInspection.java:200-203 | with every result group named, the expected count is the number of result names |
| FunctionInspection.UnnamedCountsGroups | src/ro/redeul/google/go/inspection/FunctionDeclarationInspection.java:200-203 | with no result named, the expected count is the number of result groups |
| FunctionInspection.ReturnCountConsultsHostForOne | src/ro/redeul/google/go/inspection/FunctionDeclarationInspection.java:213-219 | the host's counter is consulted only for a return of exactly one expression; any other return yields its number of expressions, zero for a bare return, and only a single expression can make the count unknown |
| FunctionInspection.ReturnProblem | src/ro/redeul/google/go/inspection/FunctionDeclarationInspection.java:211-233 | a return statement yields at most one problem: none for an unknown count or a bare return with named results; too-many iff expected < count; not-enough iff expected > count; none when equal |
| FunctionInspection.ReturnCountMismatches | src/ro/redeul/google/go/inspection/FunctionDeclarationInspection.java:107-109 | a function's count problems are exactly the problems of its own return statements, each judged against the declared results; returns inside function literals are not its own; at most one problem per return |
| FunctionInspection.VariadicBelow | src/ro/redeul/google/go/inspection/FunctionDeclarationInspection.java:125-130 | the loop finds exactly the variadic groups below the bound, in increasing order |
| FunctionInspection.VariadicProblems | src/ro/redeul/google/go/inspection/FunctionDeclarationInspection.java:111-131 | one problem per variadic result group and one per variadic parameter group other than the last, and no other; the last parameter group is never reported |
| FunctionInspection.CheckFunctionInOrder | src/ro/redeul/google/go/inspection/FunctionDeclarationInspection.java:58-65 | a function's problems are those of the missing-return, duplicate, redeclared, return-count and variadic checks, in that order |
| FunctionInspection.OfCheck | src/ro/redeul/google/go/inspection/FunctionDeclarationInspection.java:58-65 | selecting one check's problems keeps exactly the problems of that check's kinds |
| FunctionInspection.RunCheckKinds | src/ro/redeul/google/go/inspection/FunctionDeclarationInspection.java:58-65 | each check reports only problems of its own kinds |
| FunctionInspection.ChecksAreIndependent | src/ro/redeul/google/go/inspection/FunctionDeclarationInspection.java:58-65 | within the combined list, each check's problems are exactly what that check reports alone; no check is skipped or trimmed because another one reported |
| InspectionProperties.LiteralReturnsAreNotCounted | src/ro/redeul/google/go/inspection/FunctionDeclarationInspection.java:206-209 | the return statements of a function literal in the body, whatever they are, do not change the enclosing function's count problems |
| InspectionProperties.NestedBlockReturnsAreCounted | src/ro/redeul/google/go/inspection/FunctionDeclarationInspection.java:190-212 | a return statement nested in a block of the body is one of the function's own returns |
| InspectionProperties.MatchingReturnsAreSilent | src/ro/redeul/google/go/inspection/FunctionDeclarationInspection.java:223-232 | returns whose count is unknown or equal to the expected count yield no problem |
| InspectionProperties.FunctionWithMatchingReturnsIsSilent | src/ro/redeul/google/go/inspection/FunctionDeclarationInspection.java:107-109 | a function whose every own return yields the declared number of values has no count problem |
| InspectionProperties.BareReturnWithUnnamedResults | src/ro/redeul/google/go/inspection/FunctionDeclarationInspection.java:221-231 | a bare `return` with unnamed results is reported as not returning enough values |
| FileInspection.VisitedAsWritten | src/ro/redeul/google/go/inspection/FunctionDeclarationInspection.java:40-55 | the file visitor checks every top-level function and method; every function-like node of the file is either checked or nested in the body of a checked one, and nothing else is checked |
| FileInspection.DeclarationIsChecked | src/ro/redeul/google/go/inspection/FunctionDeclarationInspection.java:38-56 | the file's problems are those of the declarations before a function or method, then its five checks, then those of the declarations after it |
| FileInspection.NestedLiteralIsNotChecked | src/ro/redeul/google/go/inspection/FunctionDeclarationInspection.java:40-55 | a literal with a missing return inside a function body goes unreported by the file visitor as written |
| FileInspection.CheckFileChecksAll | src/ro/redeul/google/go/inspection/FunctionDeclarationInspection.java:38-65 | the corrected file visitor runs the five checks on every function, method and function literal of the file, each before those nested in it |
| FileInspection.NestedLiteralIsCheckedWhenCorrected | src/ro/redeul/google/go/inspection/FunctionDeclarationInspection.java:38-65 | the corrected visitor reports the missing return of that nested literal |
| FileInspection.AgreeWithoutNestedLiterals | src/ro/redeul/google/go/inspection/FunctionDeclarationInspection.java:40-55 | when no function-like node holds a literal, the visitor as written and the corrected one report the same problems |

## Left out

- IntelliJ plumbing is not modelled: the PSI classes, `InspectionManager`, problem descriptors, message texts and quick fixes. A finding is a category, an anchor id and a severity; a problem is a kind and an anchor id.
- `getExpressionResultCount` is not part of this model. It is the parameter `count`.
- `checkExpressionShouldReturnOneResult` is not part of this model, and the multi-value-as-single check it performs is left out.
- Whitespace and comment skipping before the closing `}` is not modelled. A block is its cleaned statement list plus a flag saying whether it ends in `}`.
- The generic visitor classes (`GoRecursiveElementVisitor`, `GoRecursiveElementVisitor2`) are not part of this model. Their walk is the recursive `Visit`/`VisitChildren` over `Node` and the recursive checks over `Stmt`/`Expr`.
- The identifier text is taken to equal `getName()`. Definitions and usages use `getText()`, while parameter seeding (line 160) and global seeding (lines 171 and 179) use `getName()`.
- Every file-level const or var declaration is taken to be a group (`Declarations`) that is a direct child of the file, as the globals are collected from such groups. A lone spec at file level, or a group under another file-level node, would be neither seeded as a global nor defined.
- The `VariableUsage` class is not part of this model. `isUsed` is taken as "has at least one usage" and `isBlank` as "the name is `_`".
- The walk is assumed not to reach the identifiers that a const/var spec or a parameter list declares as `GoIdentifier` elements. The model carries them in the node kind, not as `Identifier` children. If the walk did reach them, lines 72-73 would record each declaration as a read of itself, and no declared name would ever be reported unused.
- FunctionInspection.ExpectedResCount: its contract gives only lower bounds. The exact value is stated for the all-named case (`AllNamedCountsNames`) and the all-unnamed case (`UnnamedCountsGroups`), not for mixed result lists, which Go does not allow.
- Scopes.Sweep: the order of the findings within one sweep is left open, because the source iterates a hash map.
- testdata/inspection/fmtUsage/missingParameter.go is a fixture for a printf-format inspection whose code is not part of this model.

## Findings

| source | as written | input that shows it | evidently intended | confidence | as-written member | corrected member |
|---|---|---|---|---|---|---|
| src/ro/redeul/google/go/inspection/FunctionDeclarationInspection.java:40-55 | the file visitor's callbacks for function and method declarations and function literals check the node and do not continue the walk into it (the same override pattern is used at lines 206-209 to stop the recursion), so a function literal inside a function body is never checked | `func outer() { func() int {}() }`: the literal has a result and no return, yet no problem is reported | every function, method and function literal of the file gets the five checks | medium, not executed (the default visitor methods are not part of this model) | FileInspection.NestedLiteralIsNotChecked | FileInspection.CheckFileChecksAll |
| src/ro/redeul/google/go/findUsages/GoVariableUsageStatVisitor.java:106-116 | a const or var declaration at file level is visited like one in a function: its hook re-binds each name fresh in the global level, although `getGlobalVariables` (lines 166-184) already bound it, and the uses recorded on the old binding are dropped | `func main() { println(x) }; var x = 1`: the read of `x` in `main` lands on the seeded global, then the file-level `var` re-binds `x` unused, and `x` is reported as an unused global | a read of a global anywhere in the file counts as a use | medium, not executed | UsageProperties.GlobalReadLostAsWritten | VariableUsage.VisitKeepsGlobals |
