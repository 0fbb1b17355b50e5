# Opacity CLI: SDK-version inference and flow parameter extraction, in Dafny

This project models two parts of the Opacity command-line tool and proves properties of them.

**The SDK-version engine (`opacity version`).** It works out the oldest Opacity SDK a Luau flow can run on.

- A *version file* maps SDK functions to a version interval (`minSdkVersion`, optional `maxSdkVersion`). It also names a default minimum and a *probe* function (`sdkVersionFunction`) that reports the running SDK's version.
- For each module, a resolver walks the syntax tree with a stack of scopes.
  - A call of a mapped function, directly or through `pcall(f)`, narrows the innermost scope by the function's interval.
  - Popping a scope narrows its parent.
  - An `if`/`else` guarded by the probe counts as the union of its two branches. Each branch is measured by a fresh resolver, and the statement is then cleared.
- A dependency graph follows `require` calls with literal paths. Each module's version is then narrowed by the versions of the modules it requires, in topological order.

**The parameter extractors (`opacity bundle`).** They derive a flow's parameter schema from the type of its `main(params: T)` function.

- The schema is a list of variants. Each variant is a list of `Param { name, description, ty, required }`.
- `param_extractor.rs` works on darklua's Luau tree. It resolves type names, `type` declarations and unions of string literals. It follows declarations into required modules, and takes descriptions from comments. As written, it refuses every array and parenthesised field type (see "## Findings").
- `custom_process_bundle.rs` works on full_moon's tree. It accepts a table type, or a name declared as one, with primitive fields.

Module layout:

| file | module | source |
|---|---|---|
| wrappers.dfy | Wrappers | `Option` / `Result` |
| strings.dfy | Strings | `str::trim`, `split`, `join` |
| sdk_version.dfy | SdkVersion | sdk_version.rs |
| lua_ast.dfy | LuaAst | the darklua nodes the engine reads |
| scoped_map.dfy | ScopedMap | darklua's `ScopedHashMap`, as used by the resolver |
| default_visitor.dfy | DefaultVisitor | the order in which darklua's visitors reach nodes |
| version_utils.dfy | VersionUtils | utils.rs |
| has_call_visitor.dfy | HasCallToFunction | has_call_to_function_visitor.rs |
| version_walk.dfy | VersionWalk | version_visitor.rs, as functions over the resolver's state |
| version_resolver.dfy | VersionResolution | version_visitor.rs, as a class with methods |
| version_tests.dfy | VersionResolverExamples | the unit tests of version_visitor.rs |
| dependency_visitor.dfy | RequireDependencies | dependency_visitor.rs |
| toposort.dfy | Toposort | the topological sort the work loop calls |
| dependency_graph.dfy | DependencyGraph | dependency_graph.rs, as functions over the graph |
| dependency_work.dfy | DependencyWork | dependency_graph.rs, as the `Work` class |
| param_schema.dfy | ParamSchema | param_extractor.rs, as functions |
| param_extractor.dfy | ParamExtraction | param_extractor.rs, as the visitor class |
| custom_process_bundle.dfy | CustomBundle | custom_process_bundle.rs |
| param_examples.dfy | ParamExamples | tests/params_extraction |

**How the model is built.**

- Each stateful Rust object is a Dafny `class` with the same fields: `VersionResolver`, `HasCallToFunctionVisitor`, `RequireDependencyProcessor`, `Work`, `ParamExtractorVisitor` and `ParamVisitor`.
  - Each method's `ensures` ties the new state to a specification function of the old state.
  - The properties are then proved about those functions.
- Both extractors are modelled with the two corrections of "## Findings" applied.
  - The code as written is modelled at field level only: `ParamSchema.FieldTypeAsWritten` and `CustomBundle.FieldValueAsWritten`.
  - Every member above the field level uses the corrected definitions. Its row in "## Model" is marked "Corrected field typing" or "Corrected `required` flag".
- darklua's scope walk reports a function's parameters and a loop's identifiers through `Scope::insert`, and local assignments through `insert_local`.
  - The resolver's `insert` is empty (version_visitor.rs:245), so parameters and loop identifiers get no binding of their own.
  - The model makes these `insert` calls explicitly (`VersionWalk.InsertIdentifiers`, `VersionResolver.Insert`).
- The version command parses each file as it is (dependency_graph.rs:159-162). Type removal and if-expression removal run only when bundling.
  - So type casts, if-expressions and interpolated strings reach the resolver and the require collector.
  - The model's expressions include them, and every walk goes into their inner expressions in darklua's order.
- `u64` becomes `nat`. Versions are only compared, with max and min, so no wrap-around can occur.
- A path is a sequence of `std::path::Component`s.
- Inputs that come from outside the code become parameters:
  - the file system (a map from path to parsed block, or a reader function);
  - darklua's require-path locator (a function value);
  - the current directory.

## Model

| member | source | states |
|---|---|---|
| SdkVersion.Default | src/commands/version/sdk_version.rs:3-8 | The derived default admits every version and is the loosest interval. |
| SdkVersion.New | src/commands/version/sdk_version.rs:20-25 | `new(d)` admits exactly the versions from `d` on. |
| SdkVersion.MinimumOfMax | src/commands/version/sdk_version.rs:37-44 | The result is absent only when both bounds are absent. Otherwise it is one of them and no larger than either. |
| SdkVersion.Intersection | src/commands/version/sdk_version.rs:27-35 | Admits exactly the versions both intervals admit. It is their greatest lower bound in the strictness order. |
| SdkVersion.Union | src/commands/version/sdk_version.rs:46-54 | Admits every version either interval admits. It is their least upper bound, and unbounded above when either input is. |
| SdkVersion.IntersectionCommutative | src/commands/version/sdk_version.rs:27-35 | Intersection is commutative. |
| SdkVersion.IntersectionAssociative | src/commands/version/sdk_version.rs:27-35 | Intersection is associative, so the fold in the final pass does not depend on grouping. |
| SdkVersion.IntersectionIdempotent | src/commands/version/sdk_version.rs:27-35 | Intersecting an interval with itself changes nothing. |
| SdkVersion.UnionCommutative | src/commands/version/sdk_version.rs:46-54 | Union is commutative, so the order of the `if` and `else` branches does not matter. |
| SdkVersion.UnionIdempotent | src/commands/version/sdk_version.rs:46-54 | The union of an interval with itself is that interval. |
| SdkVersion.Absorption | src/commands/version/sdk_version.rs:27-54 | Intersection and union absorb each other: they form a lattice. |
| SdkVersion.IntersectionDefault | src/commands/version/sdk_version.rs:3-8 | The default is the identity of intersection. This makes it the right seed for the fold at dependency_graph.rs:383. |
| SdkVersion.IntersectionKeepsMinimum | src/commands/version/sdk_version.rs:27-35 | Intersection never lowers a lower bound. |
| SdkVersion.FoldIntersectionContains | src/commands/version/dependency_graph.rs:379-386 | The folded intersection admits exactly what the seed and every element admit. |
| SdkVersion.FoldIntersectionBound | src/commands/version/dependency_graph.rs:379-386 | The folded intersection is at least as strict as the seed and as every element. |
| ScopedMap.Push | src/commands/version/version_visitor.rs:217-222 | Pushing adds one empty innermost frame and keeps every open frame as it was. |
| ScopedMap.Insert | src/commands/version/version_visitor.rs:246-249 | Inserting binds the key in the innermost frame, replacing its binding there, and keeps the outer frames. With no frame open, it opens one holding just that binding. |
| ScopedMap.Get | src/commands/version/has_call_to_function_visitor.rs:30-48 | A lookup succeeds exactly when some frame binds the key. |
| ScopedMap.GetAfterInsert | src/commands/version/version_visitor.rs:246-249 | A binding is visible right after it is made, and no other key changes. |
| ScopedMap.PushThenPop | src/commands/version/version_visitor.rs:217-244 | An empty frame hides nothing, and popping it restores the map. |
| VersionUtils.NormalizeSpec | src/commands/version/utils.rs:41-93 | The result is empty exactly when the input path is empty. |
| VersionUtils.Normalize | src/commands/version/utils.rs:41-93 | The component loop, with its push and pop of `ret`, computes `NormalizeSpec`. |
| VersionUtils.NormalizePath | src/commands/version/utils.rs:95-97 | `normalize_path` is normalisation that drops `.`. |
| VersionUtils.NormalizePathWithCurrentDir | src/commands/version/utils.rs:99-101 | `normalize_path_with_current_dir` is normalisation that keeps a leading `.`. |
| VersionUtils.NormalizeIsNormal | src/commands/version/utils.rs:56-90 | A non-empty path normalises to normal shape: `..` only at the front, `.` only alone or leading (when kept), and the root first. |
| VersionUtils.NormalIsFixedPoint | src/commands/version/utils.rs:41-93 | A path of normal shape is its own normal form. |
| VersionUtils.NormalizeIdempotent | src/commands/version/utils.rs:41-93 | Normalising twice is normalising once. |
| VersionUtils.NormalizeWithoutParentDir | src/commands/version/utils.rs:56-90 | Without `..`, `normalize_path` keeps the other components in order and drops each `.`. It gives `.` when nothing remains. |
| VersionUtils.NormalizeKeepVersusDrop | src/commands/version/utils.rs:95-101 | The two entry points differ at most by one leading `.`. |
| VersionUtils.NormalizeAppendParentDir | src/commands/version/utils.rs:67-81 | An appended `..` acts on the last normal component. It replaces a `.`, follows a `..`, and otherwise removes the component, leaving `.` when nothing remains. |
| VersionUtils.NormalizeAppendCurDir | src/commands/version/utils.rs:56-86 | An appended `.` never changes the normal form. |
| VersionUtils.NormalizeAppendNormal | src/commands/version/utils.rs:56-86 | For `normalize_path`, an appended root or name is emitted after the normal form, replacing a lone `.`. |
| VersionUtils.NameChain | src/commands/version/utils.rs:123-147 | A field chain of identifiers gives at least two names, ending with the field. |
| VersionUtils.GetFqn | src/commands/version/utils.rs:123-147 | `get_fqn` is defined exactly on chains of identifiers. Its value is their names joined by `.`. |
| VersionUtils.FqnSplitsIntoNames | src/commands/version/utils.rs:123-147 | The dotted name splits back into the chain of names. |
| HasCallToFunction.CalleeName | src/commands/version/has_call_to_function_visitor.rs:50-66 | The name of a callee is the identifier, or the dotted name of a field chain. Other callees have none. |
| HasCallToFunction.HasCallToFunctionVisitor.constructor | src/commands/version/has_call_to_function_visitor.rs:13-22 | The flag starts cleared. |
| HasCallToFunction.HasCallToFunctionVisitor.ProcessExpression | src/commands/version/has_call_to_function_visitor.rs:30-48 | An identifier bound to a call of the probe sets the flag. Nothing ever clears it. |
| HasCallToFunction.HasCallToFunctionVisitor.ProcessFunctionCall | src/commands/version/has_call_to_function_visitor.rs:50-66 | A non-method call through the probe's name sets the flag. |
| HasCallToFunction.HasCallToFunctionVisitor.Process | src/commands/version/has_call_to_function_visitor.rs:28-67 | Every visitor callback sets the flag exactly when its node names the probe. Nothing ever clears it. |
| HasCallToFunction.HasCallToFunctionVisitor.VisitExpression | src/commands/version/version_visitor.rs:140-149 | After a visit of a condition, the flag is set exactly when some callback of the walk sees the probe. |
| HasCallToFunction.MethodCallNeverTriggers | src/commands/version/has_call_to_function_visitor.rs:50-54 | A method call never sets the flag. |
| HasCallToFunction.UnnamedCalleeNeverTriggers | src/commands/version/has_call_to_function_visitor.rs:55-60 | Indexed, called and parenthesised callees never set the flag. |
| HasCallToFunction.DottedCalleeTriggers | src/commands/version/has_call_to_function_visitor.rs:55-65 | A field-chain callee sets the flag exactly when its dotted name is the probe. |
| HasCallToFunction.IdentifierTriggers | src/commands/version/has_call_to_function_visitor.rs:30-48 | An identifier sets the flag exactly when it is bound to a call made through the bare probe name. |
| HasCallToFunction.HasProbeAppend | src/commands/version/has_call_to_function_visitor.rs:24-26 | The flag over a walk is the disjunction over its parts. |
| HasCallToFunction.DirectProbeInCondition | src/commands/version/has_call_to_function_visitor.rs:50-66 | `get_sdk_version() > 15` is detected. |
| HasCallToFunction.CastProbeInCondition | src/commands/version/has_call_to_function_visitor.rs:50-66 | `(get_sdk_version() :: number) > 15` is detected: the walk goes into a type cast's expression. |
| HasCallToFunction.BoundProbeInCondition | src/commands/version/has_call_to_function_visitor.rs:30-48 | `local version = get_sdk_version()` then `version > 15` is detected through the binding. |
| VersionWalk.NewState | src/commands/version/version_visitor.rs:58-65 | A new resolver has no open scope and admits exactly the versions from the default on. The default is 1 when none is given. |
| VersionWalk.UpdateScopeData | src/commands/version/version_visitor.rs:67-70 | The new value admits what both admit, and is at least as strict as the old one. |
| VersionWalk.UpdateLastScopeData | src/commands/version/version_visitor.rs:72-82 | With no open scope the result is replaced. Otherwise only the innermost scope narrows, and the bindings are kept. |
| VersionWalk.PushState | src/commands/version/version_visitor.rs:217-222 | A push adds a default-seeded scope and a binding frame. |
| VersionWalk.PopIntersectsIntoParent | src/commands/version/version_visitor.rs:223-244 | Popping an inner scope replaces its parent with their intersection. The explicit `max` at lines 232-234 is subsumed by it. |
| VersionWalk.PopOutermostOverwrites | src/commands/version/version_visitor.rs:224-230 | Popping the last scope replaces the result with that scope's interval. |
| VersionWalk.InsertLocalState | src/commands/version/version_visitor.rs:246-249 | The name is bound to its initialiser, if any. Other names and the versions are unchanged. |
| VersionWalk.ClearIfStatement | src/commands/version/version_visitor.rs:202-214 | Every condition becomes `true` and every block empty, and the number of branches and the presence of `else` are kept. |
| VersionWalk.MappedCallNarrows | src/commands/version/version_visitor.rs:90-125 | A plain call of a mapped name narrows the innermost scope by its mapping. |
| VersionWalk.MappedCallInIfExpressionNarrows | src/commands/version/version_visitor.rs:90-125 | A mapped call in the result of an if-expression, `if ok then f() else nil`, narrows the innermost scope by `f`'s mapping, like a plain call. |
| VersionWalk.UnmappedCallChangesNothing | src/commands/version/version_visitor.rs:91-123 | Method calls, unnamed callees and unmapped names change nothing. |
| VersionWalk.PcallCountsAsCallOfArgument | src/commands/version/version_visitor.rs:102-116 | `pcall(f, ...)` counts as a call of `f`. |
| VersionWalk.PcallWithoutNameChangesNothing | src/commands/version/version_visitor.rs:104-116 | `pcall()`, and a `pcall` whose first argument is not a name, contribute nothing. |
| VersionWalk.ProbeGuardedIfElse | src/commands/version/version_visitor.rs:137-171 | A probe-guarded `if`/`else` narrows the innermost scope by the union of the two branches, each measured by a fresh resolver. The statement is cleared. |
| VersionWalk.ProbeGuardedIfOnlyClears | src/commands/version/version_visitor.rs:172-191 | A probe-guarded `if` without `else` is cleared and narrows nothing. |
| VersionWalk.OtherStatementsUntouched | src/commands/version/version_visitor.rs:127-199 | A statement that is not an `if`, an `if` with `elseif` branches, and an `if` whose condition never calls the probe all leave the state and the statement unchanged. |
| VersionWalk.ClearedIfContributesNothing | src/commands/version/version_visitor.rs:202-214 | Inside a block, the children of a cleared `if` change nothing. |
| VersionWalk.ProbeGuardedIfWalk | src/commands/version/version_visitor.rs:127-214 | Walking a probe-guarded `if` is processing it: its cleared branches add nothing. |
| VersionWalk.ResolveBlockAboveDefault | src/commands/version/version_visitor.rs:58-65 | A fresh resolver never reports a minimum below the default. |
| VersionWalk.BlockAboveDefault | src/commands/version/version_visitor.rs:217-244 | A block walk keeps every scope at or above the default and keeps the number of open scopes. |
| VersionWalk.ScopedBlockAboveDefault | src/commands/version/version_visitor.rs:217-244 | A function or loop body walked in its own scope keeps the floor and the depth. |
| VersionWalk.StatementAboveDefault | src/commands/version/version_visitor.rs:90-244 | Walking any statement keeps the floor and the depth. |
| VersionResolution.VersionResolver.constructor | src/commands/version/version_visitor.rs:58-65 | The state of a new resolver is `NewState`. |
| VersionResolution.VersionResolver.UpdateLastScopeData | src/commands/version/version_visitor.rs:72-82 | The fields change as `UpdateLastScopeData` says. |
| VersionResolution.VersionResolver.Push | src/commands/version/version_visitor.rs:217-222 | The fields change as `PushState` says. |
| VersionResolution.VersionResolver.Pop | src/commands/version/version_visitor.rs:223-244 | The fields change as `PopState` says. |
| VersionWalk.ScopedBodySeesOuterBindings | src/commands/version/version_visitor.rs:245 | Inside a function or loop body, every name resolves as it did outside, including a name a parameter or loop identifier reuses: `insert` binds nothing. |
| VersionResolution.VersionResolver.Insert | src/commands/version/version_visitor.rs:245 | `insert` leaves the state as `InsertIdentifiers` says: unchanged. |
| VersionResolution.VersionResolver.InsertLocal | src/commands/version/version_visitor.rs:246-249 | The fields change as `InsertLocalState` says. |
| VersionResolution.VersionResolver.ProcessFunctionCall | src/commands/version/version_visitor.rs:90-125 | The fields change as `ProcessFunctionCallState` says. |
| VersionResolution.VersionResolver.ProcessStatement | src/commands/version/version_visitor.rs:127-199 | The new state and the rewritten statement are those of `ProcessStatementSpec`. |
| VersionResolution.VersionResolver.VisitBlock | src/commands/version/version_visitor.rs:144-160 | A `ScopeVisitor` walk of a block leaves the state `WalkBlock` describes. |
| VersionResolution.VersionResolver.VisitStatement | src/commands/version/version_visitor.rs:127-199 | A statement is processed, then its children are walked, as `WalkStatement` describes. Function and loop bodies go through `VisitScopedBlock`. |
| VersionResolution.VersionResolver.VisitScopedBlock | src/commands/version/version_visitor.rs:217-249 | A function or loop body: a push, `insert` for each parameter or loop identifier, the body's block, and a pop, as `WalkScopedBody` says. |
| VersionResolution.VersionResolver.InsertLocals | src/commands/version/version_visitor.rs:246-249 | Each name of a `local` statement is bound to its value, if any. |
| VersionResolution.VersionResolver.VisitExpression | src/commands/version/version_visitor.rs:90-125 | An expression walk calls `process_function_call` on every call in it, as `WalkExpression` says. A function expression's body goes through `VisitScopedBlock`. |
| VersionResolution.ResolveModuleVersion | src/commands/version/dependency_graph.rs:192-213 | A fresh resolver over a module's block reports `ResolveBlock`, never below the default. |
| VersionResolverExamples.TestDefault | src/commands/version/version_visitor.rs:260-281 | The test version file has default 10. |
| VersionResolverExamples.TestMappings | src/commands/version/version_visitor.rs:260-281 | The test version file maps its four functions to their intervals. |
| VersionResolverExamples.ResolveSingleCall | src/commands/version/version_visitor.rs:90-125 | A block that is one call reports the call's interval narrowed by the default. |
| VersionResolverExamples.ProbeLocal | src/commands/version/version_visitor.rs:289 | After `local sdk_version = get_sdk_version()`, the loop scope is 13 and the name is bound to the probe call. |
| VersionResolverExamples.ConditionCallsProbe | src/commands/version/version_visitor.rs:290 | `sdk_version >= 20` calls the probe through the binding. |
| VersionResolverExamples.BranchVersions | src/commands/version/version_visitor.rs:290-294 | `at_least_20()` alone reports 20. `less_than_20()` alone reports 16 to 19. |
| VersionResolverExamples.GuardedIfElseStatement | src/commands/version/version_visitor.rs:290-294 | The guarded `if`/`else` narrows the loop scope by the union, whose minimum is 16. |
| VersionResolverExamples.IfElseTest | src/commands/version/version_visitor.rs:283-307 | The if/else test program resolves to minimum 16. |
| VersionResolverExamples.IfOnlyTest | src/commands/version/version_visitor.rs:309-332 | The if-only test program resolves to minimum 13. |
| VersionResolverExamples.PcallLoopBody | src/commands/version/version_visitor.rs:340 | `pcall(global_function_15)` narrows the loop scope to 15. |
| VersionResolverExamples.PcallTest | src/commands/version/version_visitor.rs:334-353 | The pcall test program resolves to minimum 15. |
| RequireDependencies.PathComponents | src/commands/version/dependency_visitor.rs:59-64 | `Path::new(s).components()` on Unix:<br>• the path starts with the root exactly when `s` starts with `/`;<br>• after the first component there are only `..` and names;<br>• names are neither empty nor `.`, and contain no `/`. |
| RequireDependencies.PlainRelativePath | src/commands/version/dependency_visitor.rs:59-64 | A relative path of plain names has one `Normal` component per name. |
| RequireDependencies.MatchPathRequireCall | src/commands/version/dependency_visitor.rs:66-80 | A path is found exactly for one string argument or the string-call form. It is normalised, keeping a leading `.`. |
| RequireDependencies.RequireCall | src/commands/version/dependency_visitor.rs:94-100 | A path is found only for a non-method call of the bare name `require`. For such a call it is the literal's path. |
| RequireDependencies.ResolvedOrFailed | src/commands/version/dependency_visitor.rs:101-118 | Every literal is resolved or reported, never both, never neither. |
| RequireDependencies.ResolvedWhenNoFailures | src/commands/version/dependency_graph.rs:272-279 | With no failures, the dependencies are the literals' resolutions, in order. |
| RequireDependencies.FileDependencies | src/commands/version/dependency_graph.rs:245-280 | `collect_dependencies` succeeds exactly when every literal resolves, with one path per literal. Otherwise it reports a non-empty list of errors. |
| RequireDependencies.RequireDependencyProcessor.constructor | src/commands/version/dependency_visitor.rs:83-93 | Nothing is collected yet. |
| RequireDependencies.RequireDependencyProcessor.Process | src/commands/version/dependency_visitor.rs:101-118 | A literal `require` appends its resolution, or one error when it does not resolve. Any other call changes nothing. The result is present exactly when a dependency was appended. |
| RequireDependencies.RequireDependencyProcessor.ProcessExpression | src/commands/version/dependency_visitor.rs:128-132 | A call expression is processed. Other expressions add nothing. |
| RequireDependencies.RequireDependencyProcessor.ProcessPrefixExpression | src/commands/version/dependency_visitor.rs:134-138 | A call prefix is processed. Other prefixes add nothing. |
| RequireDependencies.RequireDependencyProcessor.ProcessStatement | src/commands/version/dependency_visitor.rs:140-144 | A call statement is processed. Other statements add nothing. |
| RequireDependencies.RequireDependencyProcessor.VisitBlock | src/commands/version/dependency_graph.rs:270 | A `DefaultVisitor` walk appends the resolutions and the failures of every literal `require` in visit order. |
| RequireDependencies.CallCollectsChildren | src/commands/version/dependency_visitor.rs:126-145 | A call node itself is not a hook: what is under it is what its callee and arguments collect. |
| RequireDependencies.RequireCallCollects | src/commands/version/dependency_visitor.rs:66-100 | `require(s)` and `require "s"` collect their normalised literal and nothing else. |
| RequireDependencies.RequireStatementCollected | src/commands/version/dependency_visitor.rs:140-144 | `require("./a")` as a statement is collected once. |
| RequireDependencies.RequireExpressionCollected | src/commands/version/dependency_visitor.rs:128-132 | `local m = require "./a"` is collected once. |
| RequireDependencies.RequireCastCollected | src/commands/version/dependency_visitor.rs:128-132 | `local m = require("./a") :: T` is collected once, since the cast's expression is visited. |
| RequireDependencies.RequirePrefixCollected | src/commands/version/dependency_visitor.rs:134-138 | `require("./a").start()` is collected once, from the prefix. |
| RequireDependencies.NonLiteralRequiresIgnored | src/commands/version/dependency_visitor.rs:48-80 | These are not collected:<br>• method calls;<br>• dotted `lib.require`;<br>• non-literal arguments;<br>• two arguments. |
| RequireDependencies.ParentPathComponents | src/commands/version/dependency_visitor.rs:59-64 | `./x/../y` splits into `.`, `x`, `..`, `y`: a leading `.` is kept, and `..` is not resolved. |
| RequireDependencies.RequireParentPathNormalised | src/commands/version/dependency_visitor.rs:66-80 | `require("./x/../y")` names `./y`. |
| Toposort.FirstReady | src/commands/version/dependency_graph.rs:315-321 | The chosen node is ready and still to be placed. If none is chosen, no node from `from` on is ready. |
| Toposort.KahnSound | src/commands/version/dependency_graph.rs:315-321 | An order that is found is topological. |
| Toposort.KahnFailsOnStuck | src/commands/version/dependency_graph.rs:315-321 | When no order is found, some set of nodes is stuck: each has a predecessor in the set. |
| Toposort.StuckHasNoOrder | src/commands/version/dependency_graph.rs:315-321 | A stuck set admits no topological order. |
| Toposort.ToposortCorrect | src/commands/version/dependency_graph.rs:315-321 | The sort succeeds exactly when a topological order exists, and then returns one. |
| Toposort.SelfLoopFails | src/commands/version/dependency_graph.rs:315-321 | An edge from a node to itself makes the sort fail. |
| Toposort.NoSelfLoopInOrder | src/commands/version/dependency_graph.rs:315-321 | A topological order exists only when no edge joins a node to itself. |
| DependencyGraph.AddNodes | src/commands/version/dependency_graph.rs:122-143 | Adding nodes keeps the edges and the existing nodes. |
| DependencyGraph.AddNodesShape | src/commands/version/dependency_graph.rs:122-143 | After adding nodes:<br>• every path is mapped;<br>• paths mapped before keep their index;<br>• new nodes are fresh, unprocessed ones for unmapped paths. |
| DependencyGraph.AddNodesKeepsMapping | src/commands/version/dependency_graph.rs:122-143 | `node_mapping` and the nodes stay in step. |
| DependencyGraph.CountAll | src/commands/version/dependency_graph.rs:300-308 | All nodes are in a state exactly when that state's count is the node count. |
| DependencyGraph.EdgesIntoShape | src/commands/version/dependency_graph.rs:327-333 | The queued edges are exactly one edge from each mapped dependency into the node. |
| DependencyGraph.AdvanceCases | src/commands/version/dependency_graph.rs:145-219 | `advance_work` fails exactly on a missing node, or on an unprocessed node whose file does not read, parse or resolve, and then changes nothing. Otherwise:<br>• NotProcessed loads and becomes Processing;<br>• Processing resolves and becomes Processed;<br>• Processed stays.<br>It never reports NotProcessed. |
| DependencyGraph.LoadShape | src/commands/version/dependency_graph.rs:155-191 | Loading stores the block and dependencies on the node and adds fresh nodes for new dependencies. Nothing else changes. |
| DependencyGraph.LoadKeepsInvariant | src/commands/version/dependency_graph.rs:155-191 | Loading keeps the work invariant. |
| DependencyGraph.ResolveKeepsInvariant | src/commands/version/dependency_graph.rs:192-213 | Resolving a Processing node keeps the work invariant. |
| DependencyGraph.LoadQueuesAllEdges | src/commands/version/dependency_graph.rs:327-333 | After loading and queueing, every mapped dependency has its edge. |
| DependencyGraph.FlushKeepsInvariant | src/commands/version/dependency_graph.rs:353-355 | Adding the queued edges keeps the invariant and leaves no dependency without its edge. |
| DependencyGraph.LoadCounts | src/commands/version/dependency_graph.rs:155-191 | Loading moves one node from NotProcessed to Processing. New nodes join NotProcessed. |
| DependencyGraph.ResolveCounts | src/commands/version/dependency_graph.rs:192-213 | Resolving moves one node from Processing to Processed. |
| DependencyGraph.AdvanceProgress | src/commands/version/dependency_graph.rs:323-343 | Advancing a node that is not done keeps the invariant and lowers the work left. It counts one more Processed node exactly when it resolves one. |
| DependencyGraph.TopGraphShape | src/commands/version/dependency_graph.rs:288-298 | The top loop gives one fresh top node per distinct normalised top path, and no edge. |
| DependencyGraph.TopGraphInvariant | src/commands/version/dependency_graph.rs:288-308 | The top graph satisfies the invariant and none of its nodes is done. It is empty exactly when there are no top paths. |
| DependencyGraph.DepVersions | src/commands/version/dependency_graph.rs:368-377 | `sdk_version_of_deps` has one entry per dependency, in order: that dependency's node version. What the fold over them admits is stated by `FinalContains`. |
| DependencyGraph.DepBefore | src/commands/version/dependency_graph.rs:359-367 | In a topological order, every dependency comes before the module. |
| DependencyGraph.PropagateStep | src/commands/version/dependency_graph.rs:367-387 | Settling the next node of the order keeps every node settled so far settled. |
| DependencyGraph.PropagatedAll | src/commands/version/dependency_graph.rs:367-387 | Settling along the whole order settles every node. |
| DependencyGraph.PropagatedIsFinal | src/commands/version/dependency_graph.rs:358-389 | The final pass over a completed work graph gives the final graph. |
| DependencyGraph.FinalContains | src/commands/version/dependency_graph.rs:379-386 | In the final graph, a module admits exactly what its own code and all its dependencies' final versions admit. |
| DependencyGraph.FinalBounds | src/commands/version/dependency_graph.rs:379-386 | A module is at least as strict as its own code and as each module it requires. |
| DependencyGraph.FinalUnique | src/commands/version/dependency_graph.rs:359-387 | Two final graphs that differ only in their versions are equal. So the final versions are determined, whichever topological order the final pass follows. |
| DependencyGraph.TopVersions | src/commands/version/dependency_graph.rs:392-398 | `get_versions` holds exactly the mapped top paths. |
| DependencyGraph.FinalTopVersions | src/commands/version/dependency_graph.rs:392-398 | After success, `get_versions` holds exactly the top paths, each with its final version. |
| DependencyGraph.EmptyFinal | src/commands/version/dependency_graph.rs:300-308 | With no top paths, the empty graph is final. |
| DependencyWork.Work.Tops | src/commands/version/dependency_graph.rs:288-289 | The top paths are normalised one by one. |
| DependencyWork.Work.constructor | src/commands/version/dependency_graph.rs:102-116 | `Work::new` starts with an empty graph and empty mapping. |
| DependencyWork.Work.AddDependenciesToGraph | src/commands/version/dependency_graph.rs:122-143 | Returns the node index of each dependency, in order, creating missing nodes. |
| DependencyWork.Work.CollectDependencies | src/commands/version/dependency_graph.rs:245-280 | The result is `FileDependencies` of the node's path and block. |
| DependencyWork.Work.AdvanceWork | src/commands/version/dependency_graph.rs:145-219 | The result and the new graph are `Advance`'s. |
| DependencyWork.Work.QueueEdges | src/commands/version/dependency_graph.rs:327-333 | Appends one edge from each mapped dependency into the node. |
| DependencyWork.Work.AddEdges | src/commands/version/dependency_graph.rs:353-355 | Appends the queued edges to the graph and changes nothing else. |
| DependencyWork.Work.AddTopNodes | src/commands/version/dependency_graph.rs:288-298 | Adds one top node per normalised top path that has none. |
| DependencyWork.Work.VisitNode | src/commands/version/dependency_graph.rs:323-343 | One node of a pass:<br>• it keeps the invariant and the edge bookkeeping;<br>• it counts Processed nodes;<br>• it leaves a done node alone;<br>• it lowers the work left otherwise;<br>• it fails only on a file that does not load. |
| DependencyWork.Work.WorkPass | src/commands/version/dependency_graph.rs:323-355 | A pass over every node:<br>• it keeps the invariant;<br>• it leaves every edge in place;<br>• it lowers the work left unless it fails;<br>• it reports AllDone exactly when every node is Processed. |
| DependencyWork.Work.WorkRound | src/commands/version/dependency_graph.rs:312-356 | One round sorts and then runs a pass. It fails only on a cycle or on a file that does not load. |
| DependencyWork.Work.RunWorkLoop | src/commands/version/dependency_graph.rs:312-356 | The work loop ends with every node Processed and every edge in place, or fails on a cycle or a file that does not load. |
| DependencyWork.Work.PropagateVersions | src/commands/version/dependency_graph.rs:367-387 | Settles each node along the order, intersecting its version with its dependencies'. |
| DependencyWork.Work.SettleNode | src/commands/version/dependency_graph.rs:368-386 | One node takes in its dependencies' versions. |
| DependencyWork.Work.ComputeDependencyGraph | src/commands/version/dependency_graph.rs:282-390 | On success the graph is final:<br>• one node per top path and per dependency, with an edge per dependency;<br>• no cycle;<br>• each version narrowed by its dependencies'.<br>On failure no version has been narrowed, and there is a cycle or a file that does not load. |
| Strings.Trim | src/commands/bundle/param_extractor.rs:95-101 | `trim` returns a slice of the input surrounded by white space only. It is empty or starts and ends with a character that is not white space. |
| Strings.TrimOfTrimmed | src/commands/bundle/param_extractor.rs:95-101 | A string without surrounding white space is its own trim. |
| Strings.TrimIsTrimStartThenEnd | src/commands/bundle/param_extractor.rs:95-101 | Trimming is trimming the start and then the end. |
| Strings.Split | src/commands/bundle/param_extractor.rs:96 | `split` gives at least one piece, none containing the separator. |
| Strings.JoinSplit | src/commands/bundle/param_extractor.rs:96-99 | Joining the pieces of a split with the separator gives the string back. |
| Strings.SplitJoin | src/commands/bundle/param_extractor.rs:96-99 | Splitting a join of separator-free pieces gives the pieces back. |
| ParamSchema.TryMap | src/commands/bundle/param_extractor.rs:332-363 | A `?` loop gives one result per element in order, or the first element's error. |
| ParamSchema.GetTypeDeclForName | src/commands/bundle/param_extractor.rs:121-155 | Finds the declaration of a name in the current module. A missing module or a missing name is an error naming it. |
| ParamSchema.RenderMember | src/commands/bundle/param_extractor.rs:181-214 | An accepted union member renders as a quoted string. |
| ParamSchema.RenderStringUnion | src/commands/bundle/param_extractor.rs:227-297 | A union of string literals renders as its quoted values joined by ` \| `. Outside a field, any other member makes it fail. |
| ParamSchema.FieldUnionAcceptsOptionalLiterals | src/commands/bundle/param_extractor.rs:250-297 | `resolve_union_type` accepts exactly the unions of string literals and optional string literals. |
| ParamSchema.SimpleTypeOfBuiltinName | src/commands/bundle/param_extractor.rs:163-217 | `string`, `number` and `boolean` render as themselves. Every other built-in name is refused. |
| ParamSchema.SimpleTypeOfUserDefinedName | src/commands/bundle/param_extractor.rs:163-217 | A user-defined name is accepted exactly when it is declared as a union of string literals, and renders as those literals. |
| ParamSchema.SimpleTypeSeesThroughOptional | src/commands/bundle/param_extractor.rs:220 | An optional type resolves like the type it wraps. |
| ParamSchema.ArrayAndParentheseFieldsFailAsWritten | src/commands/bundle/param_extractor.rs:366-381 | As written, every array field and every parenthesised field is refused. |
| ParamSchema.ArrayOfStringsAsWritten | src/commands/bundle/param_extractor.rs:366-381 | As written, `{ string }` is refused as an unsupported simple type. |
| ParamSchema.ArrayFieldWrapsElement | src/commands/bundle/param_extractor.rs:366-381 | Corrected: an array of a simple type is accepted exactly when its element is, as `Vec<..>` around it. |
| ParamSchema.ParentheseFieldWrapsInner | src/commands/bundle/param_extractor.rs:422-437 | Corrected: `(T)` is accepted exactly when `T` is, as `T`'s type in parentheses. |
| ParamSchema.FieldTypeCorrectionIsLocal | src/commands/bundle/param_extractor.rs:365-443 | The correction changes only array and parenthesised fields. |
| ParamSchema.MultilineCommentLines | src/commands/bundle/param_extractor.rs:95-100 | A multi-line comment's description is the lines between `--[[` and `]]`, each trimmed, in order. |
| ParamSchema.SingleLineCommentIsTrimmed | src/commands/bundle/param_extractor.rs:101 | A one-line comment reads as its text after `--`, trimmed. |
| ParamSchema.FieldParam | src/commands/bundle/param_extractor.rs:332-445 | Corrected field typing: a field's `Param` has:<br>• the field's name;<br>• its comments as the description;<br>• `required` exactly when not optional.<br>It fails exactly when the field type does. |
| ParamSchema.TableParamsShape | src/commands/bundle/param_extractor.rs:313-449 | Corrected field typing: a resolved table has one `Param` per entry, in order. An index signature makes it fail. |
| ParamSchema.UnionDeclVariants | src/commands/bundle/param_extractor.rs:485-545 | Corrected field typing: a union declaration gives one variant per member. A member that is not a table, field or name makes it fail. |
| ParamSchema.WithLuauExtension | src/commands/bundle/param_extractor.rs:744-748 | `.luau` is appended unless the file name already ends with it. |
| ParamSchema.LastMain | src/commands/bundle/param_extractor.rs:778-782 | A `main` is found exactly when some top-level statement declares one. |
| ParamSchema.CollectFindsLastMain | src/commands/bundle/param_extractor.rs:660-782 | Collecting keeps the last `main` and never touches the errors, parameters or paths. |
| ParamSchema.FindTypeDeclaration | src/commands/bundle/param_extractor.rs:594-609 | Finds a declaration with the name exactly when the module has one. |
| ParamSchema.MissingMainIsAnError | src/commands/bundle/param_extractor.rs:788-794 | Without `main`, the only error is that there is none. |
| ParamSchema.NoParametersNoVariants | src/commands/bundle/param_extractor.rs:799-801 | A `main` without parameters gives no variants and no error. |
| ParamSchema.SeveralParametersFail | src/commands/bundle/param_extractor.rs:804-808 | More than one parameter fails with that error. |
| ParamSchema.UntypedParameterFails | src/commands/bundle/param_extractor.rs:812-818 | An untyped parameter fails with that error. |
| ParamSchema.TableParameterIsTheVariant | src/commands/bundle/param_extractor.rs:821-829 | Corrected field typing: `main(params: { ... })` gives the table's fields as the one variant, or the table's error alone. |
| ParamSchema.StringCallSugarIsNotFollowed | src/commands/bundle/param_extractor.rs:695-716 | Only `require(...)` with parenthesised arguments is followed. `require "path"` is not. |
| ParamExtraction.RenderUnionMembers | src/commands/bundle/param_extractor.rs:227-297 | The member loop and join compute `RenderUnion`. |
| ParamExtraction.ParamExtractorVisitor.constructor | src/commands/bundle/param_extractor.rs:76-82 | A new visitor has an empty context in the main module. |
| ParamExtraction.ParamExtractorVisitor.ResolveSimpleType | src/commands/bundle/param_extractor.rs:160-223 | Computes `SimpleType` in the current scope. |
| ParamExtraction.ParamExtractorVisitor.ResolveSimpleUnionType | src/commands/bundle/param_extractor.rs:227-247 | Computes `SimpleUnionType`. |
| ParamExtraction.ParamExtractorVisitor.ResolveUnionType | src/commands/bundle/param_extractor.rs:250-297 | Computes `FieldUnionType`. |
| ParamExtraction.ParamExtractorVisitor.ResolveFieldType | src/commands/bundle/param_extractor.rs:365-443 | Computes the corrected `FieldType`. |
| ParamExtraction.ParamExtractorVisitor.ResolveTypeTable | src/commands/bundle/param_extractor.rs:313-449 | Corrected field typing: computes `TableParams`. |
| ParamExtraction.ParamExtractorVisitor.ResolveTypeDeclForParamVariant | src/commands/bundle/param_extractor.rs:453-482 | Corrected field typing: computes `VariantOf`. |
| ParamExtraction.ParamExtractorVisitor.ResolveParamsTypeDecl | src/commands/bundle/param_extractor.rs:485-545 | Corrected field typing: computes `DeclVariants`. |
| ParamExtraction.ParamExtractorVisitor.ResolveTypeFromExternFile | src/commands/bundle/param_extractor.rs:551-622 | Corrected field typing: loads the required module, records its types and resolves the name in it, as `ResolveTypeFromExternFile` says. |
| ParamExtraction.ParamExtractorVisitor.CollectStatement | src/commands/bundle/param_extractor.rs:668-782 | One turn of the statement loop, as `CollectStatement` says. |
| ParamExtraction.ParamExtractorVisitor.ResolveMainFunction | src/commands/bundle/param_extractor.rs:788-818 | Corrected field typing: the checks on `main` and the resolution of its parameter, as `ResolveMainFunction` says. |
| ParamExtraction.ParamExtractorVisitor.ProcessBlock | src/commands/bundle/param_extractor.rs:660-879 | Corrected field typing: `process_block` on the top-level block, as `ProcessBlock` says. |
| ParamExtraction.ExtractParams | src/commands/bundle/param_extractor.rs:882-899 | Corrected field typing: `extract_params` gives the variants or every error, as `ExtractParams` says. |
| CustomBundle.ResolveBasicType | src/commands/bundle/custom_process_bundle.rs:94-125 | A primitive identifier names itself. A string literal is `string` and a number literal is `number`. Anything else is refused. |
| CustomBundle.FieldKey | src/commands/bundle/custom_process_bundle.rs:142-158 | A key is accepted exactly when it is an identifier name. |
| CustomBundle.RequiredFlagsInvertedAsWritten | src/commands/bundle/custom_process_bundle.rs:160-179 | As written, `string` is marked not required and `string?` required. |
| CustomBundle.FieldValue | src/commands/bundle/custom_process_bundle.rs:160-179 | Corrected: a primitive value, bare or optional, is required exactly when not optional. It differs from the code as written only in that flag. |
| CustomBundle.AgreesWithLuauExtractor | src/commands/bundle/custom_process_bundle.rs:160-179 | On a primitive field, both extractors give the same type and `required` flag. |
| CustomBundle.FieldParam | src/commands/bundle/custom_process_bundle.rs:134-187 | Corrected `required` flag: a field's `Param` has:<br>• its key;<br>• an empty description;<br>• a primitive type;<br>• `required` exactly when not optional. As written, lines 164 and 167 set the opposite flag (see "## Findings"). |
| CustomBundle.TableVariant | src/commands/bundle/custom_process_bundle.rs:192-196 | Corrected `required` flag: anything but a table is refused. |
| CustomBundle.TableVariantShape | src/commands/bundle/custom_process_bundle.rs:129-197 | Corrected `required` flag: a table is accepted exactly when every field is, with one `Param` per field, in order. |
| CustomBundle.TypeInfoVariants | src/commands/bundle/custom_process_bundle.rs:200-261 | Corrected `required` flag: only a table, or a name declared as one, gives a variant, and then exactly one. An unknown name is an error. A parenthesised type `(T)`, which full_moon parses as a tuple, is exactly the case that reaches the `unreachable!()` arm. |
| CustomBundle.LastWhereIsLast | src/commands/bundle/custom_process_bundle.rs:348-367 | The element found satisfies the test, and no later one does. |
| CustomBundle.LastMainDeclarationIsLast | src/commands/bundle/custom_process_bundle.rs:350-366 | The `main` kept is the last one declared. |
| CustomBundle.CollectKeepsLastMain | src/commands/bundle/custom_process_bundle.rs:348-378 | Collecting keeps the last `main` and leaves the variants and errors alone. |
| CustomBundle.LaterDeclarationWins | src/commands/bundle/custom_process_bundle.rs:368-375 | A name maps to its last declaration. |
| CustomBundle.UndeclaredNameKept | src/commands/bundle/custom_process_bundle.rs:368-375 | A name no statement declares keeps what it mapped to. |
| CustomBundle.Outcome | src/commands/bundle/custom_process_bundle.rs:34-51 | Corrected `required` flag: an error result carries at least one error. Variants are reported only when there are some. |
| CustomBundle.MissingMainFails | src/commands/bundle/custom_process_bundle.rs:265-274 | Without `main`, that error alone. |
| CustomBundle.NoParametersNoParams | src/commands/bundle/custom_process_bundle.rs:281-286 | A `main` without parameters leaves `flow.params` empty. |
| CustomBundle.SeveralParametersFail | src/commands/bundle/custom_process_bundle.rs:288-296 | Several parameters fail, with that error first. |
| CustomBundle.UntypedParameterFails | src/commands/bundle/custom_process_bundle.rs:299-330 | An untyped parameter fails, with that error last. |
| CustomBundle.TableParameterOutcome | src/commands/bundle/custom_process_bundle.rs:299-310 | Corrected `required` flag: a table-typed parameter gives that table's variant or its error. |
| CustomBundle.ParenthesisedParameterAborts | src/commands/bundle/custom_process_bundle.rs:200-261 | A single parameter typed `(T)` reaches the `unreachable!()` arm. The outcome is that error alone. |
| CustomBundle.ParamVisitor.constructor | src/commands/bundle/custom_process_bundle.rs:74-76 | Starts from the empty context. |
| CustomBundle.ParamVisitor.ResolveTable | src/commands/bundle/custom_process_bundle.rs:129-197 | Computes the corrected `TableVariant`. |
| CustomBundle.ParamVisitor.ResolveField | src/commands/bundle/custom_process_bundle.rs:134-187 | Computes the corrected `FieldParam`. |
| CustomBundle.ParamVisitor.ResolveTypeInfo | src/commands/bundle/custom_process_bundle.rs:200-261 | Corrected `required` flag: computes `TypeInfoVariants`. |
| CustomBundle.ParamVisitor.ResolveMainFunction | src/commands/bundle/custom_process_bundle.rs:264-333 | Corrected `required` flag: updates the context as `ResolvedMain` says. |
| CustomBundle.ParamVisitor.VisitAst | src/commands/bundle/custom_process_bundle.rs:342-386 | Corrected `required` flag: updates the context as `Visited` says. |
| CustomBundle.CustomProcessBundle | src/commands/bundle/custom_process_bundle.rs:8-53 | Corrected `required` flag: gives `Outcome`. |
| ParamExamples.TwoNumberFields | tests/params_extraction/t2/mod.rs:11-27 | `main(params: { a: number, b: number })` gives one variant of two required numbers. |
| ParamExamples.StringUnionField | tests/params_extraction/t6/mod.rs:11-21 | A union of three string literals renders as the quoted literals joined by ` \| `. |
| ParamExamples.OptionalAndRequiredStrings | tests/params_extraction/t8/mod.rs:14-25 | `string?` is optional and `string` is required. |
| ParamExamples.CommentBecomesDescription | tests/params_extraction/t9/mod.rs:14-19 | A one-line comment becomes the trimmed description. |

## Left out

- File reading and parsing: the resources and `read_to_string` are a map from path to parsed block, or a reader function.
- `full_moon` and `darklua` parsing and their internals: the model starts from their trees. Node kinds whose children hold no expression, such as operators and type packs, are reduced to what the visitors traverse.
- Expressions inside `typeof(...)` types: darklua's visitor also walks type annotations, and a `typeof(e)` type holds an expression. The model's types carry no expression, so a `require` or a gated call written inside `typeof(...)` is not collected.
- CustomBundle.TypeInfoVariants: `function main(params: (Params))` panics at custom_process_bundle.rs:259 in the source. The model reports it as the `UnhandledTypeKind` error instead, so the run ends in `Err` rather than aborting.
- Error message text: errors are datatypes that name the case and the offending item.
- `println!`, `warn!`, `flow_path` and the pretty-printed AST dump: output only.
- The `dot_graph` debug output of `Work`: output only.
- `env::current_dir`, canonicalisation and darklua's `RequirePathLocator`: a locator function value stands in for them.
- Windows paths: a require string is split on `/` only. A leading `Prefix` component is kept by `normalize`, as on any platform.
- Toposort: petgraph's `toposort` is not part of this model. Kahn's algorithm stands in for it.
  - It may return a different order, but it succeeds exactly when some topological order exists (`Toposort.ToposortCorrect`).
  - The final versions do not depend on the order (`DependencyGraph.FinalUnique`).
- `u64` width: versions are `nat`. Only `max` and `min` are applied, so no overflow can arise.
- Trivia text: a comment's text is carried in the trivia node, not read back from the file's source.
- The `unreachable!()` arms: no model input reaches them.
  - Arms for node kinds the parsers never produce have no constructor in the model. These are custom_process_bundle.rs:157 and version_visitor.rs:132 (an `if` with no branch).
  - The others are excluded by the model's state:
    - param_extractor.rs:151, a module still `NotYetResolved`: line 590 stores the module as `Resolved` before any lookup.
    - utils.rs:58, a `Prefix` after the first component: excluded by `WellFormedPath`.
    - param_extractor.rs:116 and 561, a module in the wrong resolution state: excluded by the `Fresh` and `CurrentModuleResolved` preconditions.
    - dependency_graph.rs:326, `advance_work` reporting NotProcessed: `DependencyGraph.AdvanceCases` proves this never happens.
- ParamExtraction.ExtractParams, and ParamSchema.ExtractParams, which it computes: the `unwrap()` calls of param_extractor.rs panic in the source and are not modelled. These are:
  - the canonicalisation of the main module's path and of a required file's path, at lines 739 and 750;
  - `read_to_string` of a required module, at line 575;
  - the parses at lines 577 and 888.
  The locator (`Locator`) and the module reader (`ModuleReader`) are total functions, so a missing or unparsable required file never aborts the extraction in the model.
- ParamSchema.MissingMainIsAnError: holds only for flows on which those calls succeed. In the source, a flow whose `require` cannot be resolved panics before `main` is looked at.
- ParamSchema.NoParametersNoVariants: likewise, only for flows whose required files resolve and parse.
- ParamSchema.TableParameterIsTheVariant: likewise, only for flows whose required files resolve and parse.
- ParamSchema.FieldTypeAsWritten and CustomBundle.FieldValueAsWritten: the code as written is modelled at field level only. Above that level, every member uses the corrected `FieldType` and `FieldValue` of "## Findings".
- `Nil` inside a union in param_extractor.rs: it reaches `todo!()` and is modelled as an error.
- CustomBundle.Outcome: `flow.params` is not a field of the `Flow` type in src/config.rs, so the result is returned instead of written into the flow.

## Findings

| source | as written | input that shows it | evidently intended | confidence | as-written member | corrected member |
|---|---|---|---|---|---|---|
| src/commands/bundle/param_extractor.rs:366-381 | The `Array` arm here, and the `Parenthese` arm at lines 422-437, of `resolve_type_table` pass the outer `value` to `resolve_simple_type` / `resolve_union_type`, not the element or inner type. That call then rejects the array or parenthesised type itself. | A field `tags: { string }`. The element is `Name("string")`, so `resolve_simple_type(value)` is called on the array type and fails. | Resolve the element type (`Vec<string>`) or the inner type (`(..)`). | high, not executed | ParamSchema.FieldTypeAsWritten, ParamSchema.ArrayAndParentheseFieldsFailAsWritten, ParamSchema.ArrayOfStringsAsWritten | ParamSchema.FieldType, ParamSchema.ArrayFieldWrapsElement, ParamSchema.ParentheseFieldWrapsInner |
| src/commands/bundle/custom_process_bundle.rs:160-179 | A bare primitive field gets `required = false`, and an optional one gets `required = true`. | `type Params = { category: string }` gives `category` as not required. | `required` is true exactly when the field is not optional, as the Luau extractor and tests/params_extraction/t8 have it. | high, not executed | CustomBundle.FieldValueAsWritten, CustomBundle.RequiredFlagsInvertedAsWritten | CustomBundle.FieldValue, CustomBundle.AgreesWithLuauExtractor |
