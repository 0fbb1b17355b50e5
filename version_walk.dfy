// What `VersionResolver` (src/commands/version/version_visitor.rs) computes, as functions
// over its state: the scope operations, the two `NodeProcessor` hooks, `clear_if_statement`,
// and the walk darklua's `ScopeVisitor` drives over a block.
module VersionWalk {
  import opened Wrappers
  import opened LuaAst
  import opened SdkVersion
  import opened ScopedMap
  import opened DefaultVisitor
  import opened HasCallToFunction
  import VersionUtils

  /** One entry of `functionMappings`: the interval a call of that function demands. */
  datatype FunctionMapping = FunctionMapping(minSdkVersion: nat, maxSdkVersion: Option<nat>)

  /** `version_file.json`: the default minimum, the gated functions, and the probe function's name. */
  datatype VersionFile = VersionFile(
    defaultVersion: Option<nat>,
    functionMappings: map<string, FunctionMapping>,
    sdkVersionFunction: string)

  /** `From<&FunctionMapping> for SdkVersionOut`. */
  function MappingVersion(mapping: FunctionMapping): SdkVersionOut
  {
    SdkVersionOut(mapping.minSdkVersion, mapping.maxSdkVersion)
  }

  /** `default_version.unwrap_or(1)`. */
  function DefaultVersion(versionFile: VersionFile): nat
  {
    versionFile.defaultVersion.UnwrapOr(1)
  }

  /** The fields of a `VersionResolver` besides its version file. */
  datatype ResolverState = ResolverState(
    variableScope: VariableScope,
    scopeStack: seq<SdkVersionOut>,
    scopeData: SdkVersionOut)

  /** `VersionResolver::new`: no open scope, and the result admits every version from the default on. */
  function NewState(versionFile: VersionFile): (r: ResolverState)
    ensures r.scopeStack == [] && r.variableScope == ScopedMap.Default()
    ensures forall v: nat :: Contains(r.scopeData, v) <==> DefaultVersion(versionFile) <= v
  {
    ResolverState(ScopedMap.Default(), [], New(DefaultVersion(versionFile)))
  }

  /** `update_scope_data`: the new value of `lhs`, narrowed to what `rhs` also admits. */
  function UpdateScopeData(lhs: SdkVersionOut, rhs: SdkVersionOut): (r: SdkVersionOut)
    ensures forall v: nat :: Contains(r, v) <==> Contains(lhs, v) && Contains(rhs, v)
    ensures AtLeastAsStrict(r, lhs)
  {
    Intersection(lhs, rhs)
  }

  /**
    * `update_last_scope_data`: with no open scope, `version` replaces the result; otherwise
    * it narrows the innermost scope and nothing else changes.
    */
  function UpdateLastScopeData(state: ResolverState, version: SdkVersionOut): (r: ResolverState)
    ensures r.variableScope == state.variableScope && |r.scopeStack| == |state.scopeStack|
    ensures state.scopeStack == [] ==> r.scopeData == version
    ensures state.scopeStack != [] ==>
      && r.scopeData == state.scopeData
      && r.scopeStack[..|r.scopeStack| - 1] == state.scopeStack[..|state.scopeStack| - 1]
      && (forall v: nat :: Contains(r.scopeStack[|r.scopeStack| - 1], v) <==>
            Contains(state.scopeStack[|state.scopeStack| - 1], v) && Contains(version, v))
  {
    if state.scopeStack == [] then
      state.(scopeData := SdkVersionOut(version.minSdkVersion, version.maxSdkVersion))
    else
      var n := |state.scopeStack|;
      state.(scopeStack := state.scopeStack[..n - 1] + [UpdateScopeData(state.scopeStack[n - 1], version)])
  }

  /** Narrowing a scope does not depend on, and does not touch, the bindings. */
  lemma UpdateLastKeepsBindings(state: ResolverState, version: SdkVersionOut, variableScope: VariableScope)
    ensures UpdateLastScopeData(state.(variableScope := variableScope), version)
      == UpdateLastScopeData(state, version).(variableScope := variableScope)
  {
  }

  /** `Scope::push`: a new scope seeded with the default interval, and a new binding frame. */
  function PushState(versionFile: VersionFile, state: ResolverState): (r: ResolverState)
    ensures r.scopeStack == state.scopeStack + [New(DefaultVersion(versionFile))]
    ensures r.scopeData == state.scopeData && r.variableScope == ScopedMap.Push(state.variableScope)
  {
    ResolverState(
      ScopedMap.Push(state.variableScope),
      state.scopeStack + [New(DefaultVersion(versionFile))],
      state.scopeData)
  }

  /** `Scope::pop`, step by step as written. */
  function PopState(state: ResolverState): ResolverState
  {
    var variableScope := ScopedMap.Pop(state.variableScope);
    if state.scopeStack == [] then state.(variableScope := variableScope)
    else
      var current := state.scopeStack[|state.scopeStack| - 1];
      var rest := state.scopeStack[..|state.scopeStack| - 1];
      if rest == [] then
        ResolverState(variableScope, rest, SdkVersionOut(current.minSdkVersion, current.maxSdkVersion))
      else
        var previous := rest[|rest| - 1];
        var raised := previous.(minSdkVersion := if previous.minSdkVersion >= current.minSdkVersion then previous.minSdkVersion else current.minSdkVersion);
        var merged := Intersection(raised, current);
        UpdateLastScopeData(ResolverState(variableScope, rest[..|rest| - 1] + [raised], state.scopeData), merged)
  }

  /** Popping an inner scope narrows its parent to what both admit. */
  lemma PopIntersectsIntoParent(state: ResolverState)
    requires |state.scopeStack| >= 2
    ensures var n := |state.scopeStack|;
      PopState(state) == ResolverState(
        ScopedMap.Pop(state.variableScope),
        state.scopeStack[..n - 2] + [Intersection(state.scopeStack[n - 2], state.scopeStack[n - 1])],
        state.scopeData)
  {
    var n := |state.scopeStack|;
    var rest := state.scopeStack[..n - 1];
    assert rest[..|rest| - 1] == state.scopeStack[..n - 2];
  }

  /** Popping the outermost scope replaces the result with that scope's interval. */
  lemma PopOutermostOverwrites(state: ResolverState)
    requires |state.scopeStack| == 1
    ensures PopState(state) == ResolverState(ScopedMap.Pop(state.variableScope), [], state.scopeStack[0])
  {
  }

  /** `Scope::insert_local`: the name is bound to its initialiser, if any, in the innermost frame. */
  function InsertLocalState(state: ResolverState, name: string, value: Option<Expression>): (r: ResolverState)
    ensures ScopedMap.Get(r.variableScope, name) == Some(value)
    ensures forall other :: other != name ==> ScopedMap.Get(r.variableScope, other) == ScopedMap.Get(state.variableScope, other)
    ensures r.scopeStack == state.scopeStack && r.scopeData == state.scopeData
  {
    var r := state.(variableScope := ScopedMap.Insert(state.variableScope, name, value));
    forall other | true
      ensures other != name ==> ScopedMap.Get(r.variableScope, other) == ScopedMap.Get(state.variableScope, other)
    {
      ScopedMap.GetAfterInsert(state.variableScope, name, value, other);
    }
    ScopedMap.GetAfterInsert(state.variableScope, name, value, name);
    r
  }

  /**
    * `Scope::insert` for each function parameter or loop identifier, which the scope walk
    * calls right after the push that opens the body. The resolver's `insert` (and likewise
    * `insert_self`, for a method's `self`) is empty, so these names get no binding of their
    * own: unlike `insert_local`, nothing is added to the binding frames.
    */
  function InsertIdentifiers(state: ResolverState, identifiers: seq<string>): ResolverState
  {
    state
  }

  /** The names a function declares as its parameters. */
  function ParameterNames(parameters: seq<TypedIdentifier>): (r: seq<string>)
    ensures |r| == |parameters| && forall i :: 0 <= i < |r| ==> r[i] == parameters[i].name
  {
    seq(|parameters|, i requires 0 <= i < |parameters| => parameters[i].name)
  }

  /**
    * A parameter or loop identifier does not shadow an outer binding of the same name:
    * inside the body, every name resolves as it did before the body was entered.
    */
  lemma ScopedBodySeesOuterBindings(versionFile: VersionFile, state: ResolverState, identifiers: seq<string>, name: string)
    ensures ScopedMap.Get(InsertIdentifiers(PushState(versionFile, state), identifiers).variableScope, name)
      == ScopedMap.Get(state.variableScope, name)
  {
    ScopedMap.PushThenPop(state.variableScope, name);
  }

  /**
    * The function a `pcall` runs: its first argument's identifier or dotted name; None
    * without arguments or when the first argument is anything else.
    */
  function PcallTarget(arguments: Arguments): Option<string>
  {
    match arguments
    case Tuple(values) =>
      if |values| < 1 then None
      else
        (match values[0]
         case Identifier(name) => Some(name)
         case Field(fieldExpression) => VersionUtils.GetFqn(fieldExpression)
         case _ => None)
    case _ => None
  }

  /** The name `process_function_call` looks up in the mappings, if any. */
  function MappedName(call: FunctionCall): Option<string>
  {
    if call.methodName.Some? then None
    else
      match CalleeName(call.prefix)
      case None => None
      case Some(name) => if name == "pcall" then PcallTarget(call.arguments) else Some(name)
  }

  /** `process_function_call`: a call of a mapped function narrows the innermost scope by its mapping. */
  function ProcessFunctionCallState(versionFile: VersionFile, state: ResolverState, call: FunctionCall): ResolverState
  {
    match MappedName(call)
    case Some(name) =>
      if name in versionFile.functionMappings
      then UpdateLastScopeData(state, MappingVersion(versionFile.functionMappings[name]))
      else state
    case None => state
  }

  /**
    * `clear_if_statement`: every condition becomes `true`, every block empty, the else
    * block (when present) empty, and the number of branches is kept.
    */
  function ClearIfStatement(ifStatement: IfStatement): (r: IfStatement)
    ensures |r.Branches()| == |ifStatement.Branches()|
    ensures forall i :: 0 <= i < |r.Branches()| ==> r.Branches()[i] == IfBranch(True, EmptyBlock())
    ensures r.elseBlock.Some? <==> ifStatement.elseBlock.Some?
    ensures r.elseBlock.Some? ==> r.elseBlock.value == EmptyBlock()
  {
    IfStatement(
      IfBranch(True, EmptyBlock()),
      seq(|ifStatement.elseIfBranches|, _ => IfBranch(True, EmptyBlock())),
      if ifStatement.elseBlock.Some? then Some(EmptyBlock()) else None)
  }

  /** The condition of a single-branch `if` calls the probe, as seen with the current bindings. */
  predicate ConditionHasProbe(versionFile: VersionFile, state: ResolverState, ifStatement: IfStatement)
  {
    HasProbe(versionFile.sdkVersionFunction, state.variableScope, ExpressionEvents(ifStatement.firstBranch.condition))
  }

  /**
    * `process_statement`: a probe-guarded `if`/`else` with a single branch narrows the
    * innermost scope by the union of what each branch alone demands and is cleared; a
    * probe-guarded `if` without `else` is only cleared; every other statement is left alone.
    */
  function ProcessStatementSpec(versionFile: VersionFile, state: ResolverState, statement: Statement): (ResolverState, Statement)
    decreases statement, 0
  {
    match statement
    case If(ifStatement) =>
      if ifStatement.elseIfBranches != [] then (state, statement)
      else if !ConditionHasProbe(versionFile, state, ifStatement) then (state, statement)
      else
        (match ifStatement.elseBlock
         case Some(elseBlock) =>
           var ifVersion := ResolveBlock(versionFile, ifStatement.firstBranch.block);
           var elseVersion := ResolveBlock(versionFile, elseBlock);
           (UpdateLastScopeData(state, Union(ifVersion, elseVersion)), If(ClearIfStatement(ifStatement)))
         case None => (state, If(ClearIfStatement(ifStatement))))
    case _ => (state, statement)
  }

  /** A fresh resolver run over `block`: `VersionResolver::new`, `visit_block`, `sdk_version`. */
  function ResolveBlock(versionFile: VersionFile, block: Block): SdkVersionOut
    decreases block, 3
  {
    WalkBlock(versionFile, NewState(versionFile), block).scopeData
  }

  // ---- the ScopeVisitor walk ----

  /** `ScopeVisitor::visit_block`: push, the statements, the last statement, pop. */
  function WalkBlock(versionFile: VersionFile, state: ResolverState, block: Block): ResolverState
    decreases block, 2
  {
    var inner := WalkStatements(versionFile, PushState(versionFile, state), block.statements);
    PopState(WalkLastStatement(versionFile, inner, block.lastStatement))
  }

  function WalkStatements(versionFile: VersionFile, state: ResolverState, statements: seq<Statement>): ResolverState
    decreases statements, 0
  {
    if statements == [] then state
    else WalkStatements(versionFile, WalkStatement(versionFile, state, statements[0]), statements[1..])
  }

  function WalkLastStatement(versionFile: VersionFile, state: ResolverState, last: Option<LastStatement>): ResolverState
    decreases last, 0
  {
    match last
    case Some(Return(values)) => WalkExpressions(versionFile, state, values)
    case _ => state
  }

  /** A statement: `process_statement` first, then the children of what it left in place. */
  function WalkStatement(versionFile: VersionFile, state: ResolverState, statement: Statement): ResolverState
    decreases statement, 1
  {
    var (processed, rewritten) := ProcessStatementSpec(versionFile, state, statement);
    if rewritten != statement && rewritten.If? then WalkClearedIfChildren(versionFile, processed, rewritten.ifStatement)
    else WalkStatementChildren(versionFile, processed, statement)
  }

  /**
    * A function or loop body: push, `insert` for each parameter or loop identifier, the
    * body's block, pop.
    */
  function WalkScopedBody(versionFile: VersionFile, state: ResolverState, identifiers: seq<string>, body: Block): ResolverState
    decreases body, 3
  {
    PopState(WalkBlock(versionFile, InsertIdentifiers(PushState(versionFile, state), identifiers), body))
  }

  /** `visit_block` of an empty block. */
  function WalkEmptyBlock(versionFile: VersionFile, state: ResolverState): ResolverState
  {
    PopState(PushState(versionFile, state))
  }

  function WalkEmptyBlocks(versionFile: VersionFile, state: ResolverState, count: nat): ResolverState
    decreases count
  {
    if count == 0 then state else WalkEmptyBlocks(versionFile, WalkEmptyBlock(versionFile, state), count - 1)
  }

  /**
    * The children of a cleared `if`: each `true` condition contributes nothing, and each
    * branch block and the else block is an empty block.
    */
  function WalkClearedIfChildren(versionFile: VersionFile, state: ResolverState, ifStatement: IfStatement): ResolverState
  {
    var afterBranches := WalkEmptyBlocks(versionFile, state, |ifStatement.Branches()|);
    if ifStatement.elseBlock.Some? then WalkEmptyBlock(versionFile, afterBranches) else afterBranches
  }

  function WalkStatementChildren(versionFile: VersionFile, state: ResolverState, statement: Statement): ResolverState
    decreases statement, 0
  {
    match statement
    case Assign(variables, values) =>
      WalkExpressions(versionFile, WalkVariables(versionFile, state, variables), values)
    case CompoundAssign(_, variable, value) =>
      WalkExpression(versionFile, WalkVariable(versionFile, state, variable), value)
    case CallStatement(call) => WalkFunctionCall(versionFile, state, call)
    case Do(block) => WalkBlock(versionFile, state, block)
    case FunctionStatement(_, parameters, body) =>
      WalkScopedBody(versionFile, state, ParameterNames(parameters), body)
    case GenericFor(identifiers, expressions, body) =>
      var afterExpressions := WalkExpressions(versionFile, state, expressions);
      WalkScopedBody(versionFile, afterExpressions, identifiers, body)
    case If(ifStatement) =>
      var afterFirst := WalkBranch(versionFile, state, ifStatement.firstBranch);
      var afterBranches := WalkBranches(versionFile, afterFirst, ifStatement.elseIfBranches);
      (match ifStatement.elseBlock
       case Some(elseBlock) => WalkBlock(versionFile, afterBranches, elseBlock)
       case None => afterBranches)
    case LocalAssign(variables, values) =>
      InsertLocals(WalkExpressions(versionFile, state, values), variables, values)
    case LocalFunction(_, parameters, body) =>
      WalkScopedBody(versionFile, state, ParameterNames(parameters), body)
    case NumericFor(identifier, start, end, step, body) =>
      var afterStart := WalkExpression(versionFile, state, start);
      var afterEnd := WalkExpression(versionFile, afterStart, end);
      var afterStep := WalkOptionalExpression(versionFile, afterEnd, step);
      WalkScopedBody(versionFile, afterStep, [identifier], body)
    case Repeat(body, condition) =>
      var inner := WalkStatements(versionFile, PushState(versionFile, state), body.statements);
      var afterLast := WalkLastStatement(versionFile, inner, body.lastStatement);
      PopState(WalkExpression(versionFile, afterLast, condition))
    case While(condition, body) =>
      WalkBlock(versionFile, WalkExpression(versionFile, state, condition), body)
    case TypeDeclarationStatement(_) => state
  }

  /** `for_each_assignment` with `insert_local`: the i-th name gets the i-th value, if any. */
  function InsertLocals(state: ResolverState, variables: seq<TypedIdentifier>, values: seq<Expression>): ResolverState
    decreases |variables|
  {
    if variables == [] then state
    else
      var value := if values != [] then Some(values[0]) else None;
      InsertLocals(InsertLocalState(state, variables[0].name, value), variables[1..], if values != [] then values[1..] else [])
  }

  function WalkBranches(versionFile: VersionFile, state: ResolverState, branches: seq<IfBranch>): ResolverState
    decreases branches, 0
  {
    if branches == [] then state
    else WalkBranches(versionFile, WalkBranch(versionFile, state, branches[0]), branches[1..])
  }

  function WalkBranch(versionFile: VersionFile, state: ResolverState, branch: IfBranch): ResolverState
    decreases branch, 0
  {
    WalkBlock(versionFile, WalkExpression(versionFile, state, branch.condition), branch.block)
  }

  function WalkOptionalExpression(versionFile: VersionFile, state: ResolverState, expression: Option<Expression>): ResolverState
    decreases expression, 0
  {
    match expression
    case Some(e) => WalkExpression(versionFile, state, e)
    case None => state
  }

  function WalkVariables(versionFile: VersionFile, state: ResolverState, variables: seq<Variable>): ResolverState
    decreases variables, 0
  {
    if variables == [] then state
    else WalkVariables(versionFile, WalkVariable(versionFile, state, variables[0]), variables[1..])
  }

  function WalkVariable(versionFile: VersionFile, state: ResolverState, variable: Variable): ResolverState
    decreases variable, 0
  {
    match variable
    case VariableIdentifier(_) => state
    case VariableField(fieldExpression) => WalkPrefix(versionFile, state, fieldExpression.prefix)
    case VariableIndex(indexExpression) => WalkIndex(versionFile, state, indexExpression)
  }

  function WalkExpressions(versionFile: VersionFile, state: ResolverState, expressions: seq<Expression>): ResolverState
    decreases expressions, 0
  {
    if expressions == [] then state
    else WalkExpressions(versionFile, WalkExpression(versionFile, state, expressions[0]), expressions[1..])
  }

  function WalkExpression(versionFile: VersionFile, state: ResolverState, expression: Expression): ResolverState
    decreases expression, 0
  {
    match expression
    case Field(fieldExpression) => WalkPrefix(versionFile, state, fieldExpression.prefix)
    case Index(indexExpression) => WalkIndex(versionFile, state, indexExpression)
    case Call(call) => WalkFunctionCall(versionFile, state, call)
    case Binary(_, left, right) => WalkExpression(versionFile, WalkExpression(versionFile, state, left), right)
    case Unary(_, operand) => WalkExpression(versionFile, state, operand)
    case Parenthese(inner) => WalkExpression(versionFile, state, inner)
    case FunctionExpression(parameters, body) => WalkScopedBody(versionFile, state, ParameterNames(parameters), body)
    case Table(entries) => WalkTableEntries(versionFile, state, entries)
    case IfExpression(condition, result, branches, elseResult) =>
      var afterResult := WalkExpression(versionFile, WalkExpression(versionFile, state, condition), result);
      WalkExpression(versionFile, WalkElseIfResults(versionFile, afterResult, branches), elseResult)
    case InterpolatedString(segments) => WalkSegments(versionFile, state, segments)
    case TypeCast(value, _) => WalkExpression(versionFile, state, value)
    case _ => state
  }

  function WalkElseIfResults(versionFile: VersionFile, state: ResolverState, branches: seq<ElseIfResult>): ResolverState
    decreases branches, 0
  {
    if branches == [] then state
    else WalkElseIfResults(versionFile, WalkElseIfResult(versionFile, state, branches[0]), branches[1..])
  }

  function WalkElseIfResult(versionFile: VersionFile, state: ResolverState, branch: ElseIfResult): ResolverState
    decreases branch, 0
  {
    WalkExpression(versionFile, WalkExpression(versionFile, state, branch.branchCondition), branch.branchResult)
  }

  function WalkSegments(versionFile: VersionFile, state: ResolverState, segments: seq<StringSegment>): ResolverState
    decreases segments, 0
  {
    if segments == [] then state
    else WalkSegments(versionFile, WalkSegment(versionFile, state, segments[0]), segments[1..])
  }

  function WalkSegment(versionFile: VersionFile, state: ResolverState, segment: StringSegment): ResolverState
    decreases segment, 0
  {
    match segment
    case TextSegment(_) => state
    case ValueSegment(value) => WalkExpression(versionFile, state, value)
  }

  function WalkIndex(versionFile: VersionFile, state: ResolverState, indexExpression: IndexExpression): ResolverState
    decreases indexExpression, 0
  {
    WalkExpression(versionFile, WalkPrefix(versionFile, state, indexExpression.prefix), indexExpression.index)
  }

  function WalkPrefix(versionFile: VersionFile, state: ResolverState, prefix: Prefix): ResolverState
    decreases prefix, 0
  {
    match prefix
    case PrefixIdentifier(_) => state
    case PrefixField(fieldExpression) => WalkPrefix(versionFile, state, fieldExpression.prefix)
    case PrefixIndex(indexExpression) => WalkIndex(versionFile, state, indexExpression)
    case PrefixCall(call) => WalkFunctionCall(versionFile, state, call)
    case PrefixParenthese(inner) => WalkExpression(versionFile, state, inner)
  }

  /** A call: `process_function_call` first, then its callee, then its arguments. */
  function WalkFunctionCall(versionFile: VersionFile, state: ResolverState, call: FunctionCall): ResolverState
    decreases call, 0
  {
    var processed := ProcessFunctionCallState(versionFile, state, call);
    WalkArguments(versionFile, WalkPrefix(versionFile, processed, call.prefix), call.arguments)
  }

  function WalkArguments(versionFile: VersionFile, state: ResolverState, arguments: Arguments): ResolverState
    decreases arguments, 0
  {
    match arguments
    case Tuple(values) => WalkExpressions(versionFile, state, values)
    case ArgumentString(_) => state
    case ArgumentTable(entries) => WalkTableEntries(versionFile, state, entries)
  }

  function WalkTableEntries(versionFile: VersionFile, state: ResolverState, entries: seq<TableEntry>): ResolverState
    decreases entries, 0
  {
    if entries == [] then state
    else WalkTableEntries(versionFile, WalkTableEntry(versionFile, state, entries[0]), entries[1..])
  }

  function WalkTableEntry(versionFile: VersionFile, state: ResolverState, entry: TableEntry): ResolverState
    decreases entry, 0
  {
    match entry
    case FieldEntry(_, value) => WalkExpression(versionFile, state, value)
    case IndexEntry(key, value) => WalkExpression(versionFile, WalkExpression(versionFile, state, key), value)
    case ValueEntry(value) => WalkExpression(versionFile, state, value)
  }

  // ---- properties of the two hooks ----

  /** A plain call of a mapped function narrows the innermost scope by that function's interval. */
  lemma MappedCallNarrows(versionFile: VersionFile, state: ResolverState, call: FunctionCall, name: string)
    requires call.methodName.None? && CalleeName(call.prefix) == Some(name) && name != "pcall"
    requires name in versionFile.functionMappings
    ensures ProcessFunctionCallState(versionFile, state, call)
      == UpdateLastScopeData(state, MappingVersion(versionFile.functionMappings[name]))
  {
  }

  /**
    * A mapped call inside an if-expression narrows the scope like any other call, since
    * if-expressions reach the resolver unchanged: `if ok then f() else nil` requires `f`'s
    * interval.
    */
  lemma MappedCallInIfExpressionNarrows(versionFile: VersionFile, state: ResolverState, condition: string, name: string)
    requires name != "pcall" && name in versionFile.functionMappings
    ensures var call := FunctionCall(PrefixIdentifier(name), Tuple([]), None);
      WalkExpression(versionFile, state, IfExpression(Identifier(condition), Call(call), [], Nil))
        == UpdateLastScopeData(state, MappingVersion(versionFile.functionMappings[name]))
  {
    var call := FunctionCall(PrefixIdentifier(name), Tuple([]), None);
    var narrowed := UpdateLastScopeData(state, MappingVersion(versionFile.functionMappings[name]));
    assert WalkExpression(versionFile, state, Identifier(condition)) == state;
    MappedCallNarrows(versionFile, state, call, name);
    assert WalkPrefix(versionFile, narrowed, call.prefix) == narrowed;
    assert WalkArguments(versionFile, narrowed, Tuple([])) == narrowed;
    assert WalkFunctionCall(versionFile, state, call) == narrowed;
    assert WalkExpression(versionFile, state, Call(call)) == narrowed;
    assert WalkElseIfResults(versionFile, narrowed, []) == narrowed;
  }

  /** Method calls, unnamed callees and unmapped names change nothing. */
  lemma UnmappedCallChangesNothing(versionFile: VersionFile, state: ResolverState, call: FunctionCall)
    requires || call.methodName.Some?
             || CalleeName(call.prefix).None?
             || (CalleeName(call.prefix).value != "pcall" && CalleeName(call.prefix).value !in versionFile.functionMappings)
    ensures ProcessFunctionCallState(versionFile, state, call) == state
  {
  }

  /** `pcall(f, ...)` counts as a call of `f`. */
  lemma PcallCountsAsCallOfArgument(versionFile: VersionFile, state: ResolverState, f: string, rest: seq<Expression>)
    requires f != "pcall"
    ensures ProcessFunctionCallState(versionFile, state,
        FunctionCall(PrefixIdentifier("pcall"), Tuple([Identifier(f)] + rest), None))
      == ProcessFunctionCallState(versionFile, state, FunctionCall(PrefixIdentifier(f), Tuple([]), None))
  {
  }

  /** `pcall()` and a `pcall` whose first argument is not a name contribute nothing. */
  lemma PcallWithoutNameChangesNothing(versionFile: VersionFile, state: ResolverState, arguments: Arguments)
    requires arguments.Tuple? ==> arguments.values == [] || !(arguments.values[0].Identifier? || arguments.values[0].Field?)
    ensures ProcessFunctionCallState(versionFile, state, FunctionCall(PrefixIdentifier("pcall"), arguments, None)) == state
  {
  }

  /**
    * A probe-guarded `if`/`else` with one branch: each branch is measured from a fresh
    * resolver, the innermost scope admits exactly the versions it admitted before that the
    * union of the two also admits, and the statement is cleared.
    */
  lemma ProbeGuardedIfElse(versionFile: VersionFile, state: ResolverState, ifStatement: IfStatement)
    requires ifStatement.elseIfBranches == [] && ifStatement.elseBlock.Some?
    requires ConditionHasProbe(versionFile, state, ifStatement)
    requires state.scopeStack != []
    ensures var (processed, rewritten) := ProcessStatementSpec(versionFile, state, If(ifStatement));
      var both := Union(ResolveBlock(versionFile, ifStatement.firstBranch.block), ResolveBlock(versionFile, ifStatement.elseBlock.value));
      var n := |state.scopeStack|;
      && rewritten == If(ClearIfStatement(ifStatement))
      && processed.variableScope == state.variableScope && processed.scopeData == state.scopeData
      && processed.scopeStack == state.scopeStack[..n - 1] + [Intersection(state.scopeStack[n - 1], both)]
  {
    var (processed, _) := ProcessStatementSpec(versionFile, state, If(ifStatement));
    var n := |state.scopeStack|;
    assert processed.scopeStack == processed.scopeStack[..n - 1] + [processed.scopeStack[n - 1]];
  }

  /** A probe-guarded `if` without `else` is cleared and leaves the state as it was. */
  lemma ProbeGuardedIfOnlyClears(versionFile: VersionFile, state: ResolverState, ifStatement: IfStatement)
    requires ifStatement.elseIfBranches == [] && ifStatement.elseBlock.None?
    requires ConditionHasProbe(versionFile, state, ifStatement)
    ensures ProcessStatementSpec(versionFile, state, If(ifStatement)) == (state, If(ClearIfStatement(ifStatement)))
  {
  }

  /** Everything but a probe-guarded single-branch `if` is left untouched. */
  lemma OtherStatementsUntouched(versionFile: VersionFile, state: ResolverState, statement: Statement)
    requires statement.If? ==>
      statement.ifStatement.elseIfBranches != [] || !ConditionHasProbe(versionFile, state, statement.ifStatement)
    ensures ProcessStatementSpec(versionFile, state, statement) == (state, statement)
  {
  }

  // ---- the cleared `if` contributes nothing ----

  /** The scope invariant of a walk inside a block: a scope is open and none is below the default. */
  predicate InsideBlock(versionFile: VersionFile, state: ResolverState)
  {
    && state.scopeStack != []
    && forall i :: 0 <= i < |state.scopeStack| ==> state.scopeStack[i].minSdkVersion >= DefaultVersion(versionFile)
  }

  /** A cleared branch: a `true` condition and an empty block. */
  lemma ClearedBranchIsEmptyBlock(versionFile: VersionFile, state: ResolverState)
    ensures WalkBranch(versionFile, state, IfBranch(True, EmptyBlock())) == WalkEmptyBlock(versionFile, state)
  {
    assert WalkExpression(versionFile, state, True) == state;
    var pushed := PushState(versionFile, state);
    assert WalkStatements(versionFile, pushed, []) == pushed;
    assert WalkLastStatement(versionFile, pushed, None) == pushed;
    assert WalkBlock(versionFile, state, EmptyBlock()) == PopState(pushed);
  }

  lemma ClearedElseIsEmptyBlock(versionFile: VersionFile, state: ResolverState)
    ensures WalkBlock(versionFile, state, EmptyBlock()) == WalkEmptyBlock(versionFile, state)
  {
    var pushed := PushState(versionFile, state);
    assert WalkStatements(versionFile, pushed, []) == pushed;
    assert WalkLastStatement(versionFile, pushed, None) == pushed;
  }

  /** A cleared branch: a `true` condition and an empty block. */
  predicate IsClearedBranch(branch: IfBranch)
  {
    branch == IfBranch(True, EmptyBlock())
  }

  /** Walking cleared branches is walking as many empty blocks. */
  lemma {:induction false} ClearedBranchesAreEmptyBlocks(versionFile: VersionFile, state: ResolverState, branches: seq<IfBranch>)
    requires forall i :: 0 <= i < |branches| ==> IsClearedBranch(branches[i])
    ensures WalkBranches(versionFile, state, branches) == WalkEmptyBlocks(versionFile, state, |branches|)
    decreases |branches|
  {
    if branches != [] {
      assert IsClearedBranch(branches[0]);
      var next := WalkBranch(versionFile, state, branches[0]);
      ClearedBranchIsEmptyBlock(versionFile, state);
      assert next == WalkEmptyBlock(versionFile, state);
      assert WalkBranches(versionFile, state, branches) == WalkBranches(versionFile, next, branches[1..]);
      ClearedBranchesAreEmptyBlocks(versionFile, next, branches[1..]);
      assert WalkEmptyBlocks(versionFile, state, |branches|) == WalkEmptyBlocks(versionFile, next, |branches| - 1);
    }
  }

  /** Walking the children of a cleared `if` is walking its empty blocks. */
  lemma ClearedIfWalk(versionFile: VersionFile, state: ResolverState, ifStatement: IfStatement)
    ensures WalkStatementChildren(versionFile, state, If(ClearIfStatement(ifStatement)))
      == WalkClearedIfChildren(versionFile, state, ClearIfStatement(ifStatement))
  {
    var cleared := ClearIfStatement(ifStatement);
    var count := |ifStatement.elseIfBranches|;
    IfChildrenWalk(versionFile, state, cleared);
    assert cleared.firstBranch == IfBranch(True, EmptyBlock());
    forall i | 0 <= i < |cleared.elseIfBranches|
      ensures IsClearedBranch(cleared.elseIfBranches[i])
    {
      assert cleared.elseIfBranches[i] == cleared.Branches()[i + 1];
    }
    var afterFirst := WalkBranch(versionFile, state, cleared.firstBranch);
    ClearedBranchIsEmptyBlock(versionFile, state);
    var afterBranches := WalkBranches(versionFile, afterFirst, cleared.elseIfBranches);
    ClearedBranchesAreEmptyBlocks(versionFile, afterFirst, cleared.elseIfBranches);
    assert WalkEmptyBlocks(versionFile, state, count + 1) == WalkEmptyBlocks(versionFile, afterFirst, count);
    assert afterBranches == WalkEmptyBlocks(versionFile, state, |cleared.Branches()|);
    if cleared.elseBlock.Some? {
      assert cleared.elseBlock.value == EmptyBlock();
      ClearedElseIsEmptyBlock(versionFile, afterBranches);
    }
  }

  /** The children of an `if`: each branch's condition and block in order, then the else block. */
  lemma IfChildrenWalk(versionFile: VersionFile, state: ResolverState, ifStatement: IfStatement)
    ensures WalkStatementChildren(versionFile, state, If(ifStatement)) ==
      var afterBranches := WalkBranches(versionFile, WalkBranch(versionFile, state, ifStatement.firstBranch), ifStatement.elseIfBranches);
      if ifStatement.elseBlock.Some? then WalkBlock(versionFile, afterBranches, ifStatement.elseBlock.value) else afterBranches
  {
  }

  /** Inside a block, an empty block changes nothing. */
  lemma EmptyBlockChangesNothing(versionFile: VersionFile, state: ResolverState)
    requires InsideBlock(versionFile, state)
    ensures WalkEmptyBlock(versionFile, state) == state
  {
    var n := |state.scopeStack|;
    var pushed := PushState(versionFile, state);
    assert pushed.scopeStack[..n] == state.scopeStack;
    ScopedMap.PushThenPop(state.variableScope, "");
    var previous := state.scopeStack[n - 1];
    assert Intersection(previous, Intersection(previous, New(DefaultVersion(versionFile)))) == previous;
    assert state.scopeStack[..n - 1] + [previous] == state.scopeStack;
  }

  lemma {:induction false} EmptyBlocksChangeNothing(versionFile: VersionFile, state: ResolverState, count: nat)
    requires InsideBlock(versionFile, state)
    ensures WalkEmptyBlocks(versionFile, state, count) == state
    decreases count
  {
    if count > 0 {
      EmptyBlockChangesNothing(versionFile, state);
      EmptyBlocksChangeNothing(versionFile, state, count - 1);
    }
  }

  /** Inside a block, the empty blocks of a cleared `if` change nothing. */
  lemma ClearedIfChildrenChangeNothing(versionFile: VersionFile, state: ResolverState, ifStatement: IfStatement)
    requires InsideBlock(versionFile, state)
    ensures WalkClearedIfChildren(versionFile, state, ClearIfStatement(ifStatement)) == state
  {
    var cleared := ClearIfStatement(ifStatement);
    EmptyBlocksChangeNothing(versionFile, state, |cleared.Branches()|);
    if cleared.elseBlock.Some? {
      EmptyBlockChangesNothing(versionFile, state);
    }
  }

  /** Inside a block, the children of a cleared `if` contribute nothing further. */
  lemma ClearedIfContributesNothing(versionFile: VersionFile, state: ResolverState, ifStatement: IfStatement)
    requires InsideBlock(versionFile, state)
    ensures WalkStatementChildren(versionFile, state, If(ClearIfStatement(ifStatement))) == state
  {
    ClearedIfWalk(versionFile, state, ifStatement);
    ClearedIfChildrenChangeNothing(versionFile, state, ifStatement);
  }

  /** A condition that calls the probe is not the `true` of a cleared branch. */
  lemma ProbeConditionIsNotTrue(versionFile: VersionFile, state: ResolverState, ifStatement: IfStatement)
    requires ConditionHasProbe(versionFile, state, ifStatement)
    ensures ifStatement.firstBranch.condition != True
  {
    assert ExpressionEvents(True) == [ExpressionEvent(True)];
  }

  /**
    * Walking a probe-guarded single-branch `if` inside a block is processing it: the
    * branches of the cleared statement contribute nothing further.
    */
  lemma ProbeGuardedIfWalk(versionFile: VersionFile, state: ResolverState, ifStatement: IfStatement)
    requires Walking(versionFile, state)
    requires ifStatement.elseIfBranches == [] && ConditionHasProbe(versionFile, state, ifStatement)
    ensures WalkStatement(versionFile, state, If(ifStatement)) == ProcessStatementSpec(versionFile, state, If(ifStatement)).0
  {
    ProcessStatementAboveDefault(versionFile, state, If(ifStatement));
    var (processed, rewritten) := ProcessStatementSpec(versionFile, state, If(ifStatement));
    assert rewritten == If(ClearIfStatement(ifStatement));
    ProbeConditionIsNotTrue(versionFile, state, ifStatement);
    assert rewritten != If(ifStatement);
    ClearedIfChildrenChangeNothing(versionFile, processed, ifStatement);
  }

  // ---- no result is below the default version ----

  /** No open scope and not the result admit a version below the default. */
  predicate AboveDefault(versionFile: VersionFile, state: ResolverState)
  {
    && (forall i :: 0 <= i < |state.scopeStack| ==> state.scopeStack[i].minSdkVersion >= DefaultVersion(versionFile))
    && state.scopeData.minSdkVersion >= DefaultVersion(versionFile)
  }

  /** `AboveDefault` with a scope open: the state of a walk inside a block. */
  predicate Walking(versionFile: VersionFile, state: ResolverState)
  {
    AboveDefault(versionFile, state) && state.scopeStack != []
  }

  lemma PushKeepsAboveDefault(versionFile: VersionFile, state: ResolverState)
    requires AboveDefault(versionFile, state)
    ensures Walking(versionFile, PushState(versionFile, state))
    ensures |PushState(versionFile, state).scopeStack| == |state.scopeStack| + 1
  {
  }

  lemma PopKeepsAboveDefault(versionFile: VersionFile, state: ResolverState)
    requires Walking(versionFile, state)
    ensures AboveDefault(versionFile, PopState(state))
    ensures |PopState(state).scopeStack| == |state.scopeStack| - 1
  {
    if |state.scopeStack| >= 2 {
      PopIntersectsIntoParent(state);
    }
  }

  lemma UpdateLastKeepsAboveDefault(versionFile: VersionFile, state: ResolverState, version: SdkVersionOut)
    requires Walking(versionFile, state)
    ensures Walking(versionFile, UpdateLastScopeData(state, version))
  {
    var r := UpdateLastScopeData(state, version);
    var n := |state.scopeStack|;
    forall i | 0 <= i < n
      ensures r.scopeStack[i].minSdkVersion >= DefaultVersion(versionFile)
    {
      if i < n - 1 {
        assert r.scopeStack[i] == r.scopeStack[..n - 1][i];
      }
    }
  }

  /** A whole block walk keeps the floor and the number of open scopes. */
  lemma {:induction false} BlockAboveDefault(versionFile: VersionFile, state: ResolverState, block: Block)
    requires AboveDefault(versionFile, state)
    ensures var r := WalkBlock(versionFile, state, block);
      AboveDefault(versionFile, r) && |r.scopeStack| == |state.scopeStack|
    decreases block, 2
  {
    PushKeepsAboveDefault(versionFile, state);
    var pushed := PushState(versionFile, state);
    StatementsAboveDefault(versionFile, pushed, block.statements);
    var inner := WalkStatements(versionFile, pushed, block.statements);
    LastStatementAboveDefault(versionFile, inner, block.lastStatement);
    PopKeepsAboveDefault(versionFile, WalkLastStatement(versionFile, inner, block.lastStatement));
  }

  /** What a fresh resolver reports is never below the default version. */
  lemma {:induction false} ResolveBlockAboveDefault(versionFile: VersionFile, block: Block)
    ensures ResolveBlock(versionFile, block).minSdkVersion >= DefaultVersion(versionFile)
    decreases block, 3
  {
    BlockAboveDefault(versionFile, NewState(versionFile), block);
  }

  /** A body walked in a scope of its own (functions, loops). */
  lemma {:induction false} ScopedBlockAboveDefault(versionFile: VersionFile, state: ResolverState, identifiers: seq<string>, block: Block)
    requires Walking(versionFile, state)
    ensures var r := WalkScopedBody(versionFile, state, identifiers, block);
      Walking(versionFile, r) && |r.scopeStack| == |state.scopeStack|
    decreases block, 4
  {
    PushKeepsAboveDefault(versionFile, state);
    BlockAboveDefault(versionFile, PushState(versionFile, state), block);
    PopKeepsAboveDefault(versionFile, WalkBlock(versionFile, PushState(versionFile, state), block));
  }

  lemma {:induction false} StatementsAboveDefault(versionFile: VersionFile, state: ResolverState, statements: seq<Statement>)
    requires Walking(versionFile, state)
    ensures var r := WalkStatements(versionFile, state, statements);
      Walking(versionFile, r) && |r.scopeStack| == |state.scopeStack|
    decreases statements, 0
  {
    if statements != [] {
      StatementAboveDefault(versionFile, state, statements[0]);
      StatementsAboveDefault(versionFile, WalkStatement(versionFile, state, statements[0]), statements[1..]);
    }
  }

  lemma {:induction false} LastStatementAboveDefault(versionFile: VersionFile, state: ResolverState, last: Option<LastStatement>)
    requires Walking(versionFile, state)
    ensures var r := WalkLastStatement(versionFile, state, last);
      Walking(versionFile, r) && |r.scopeStack| == |state.scopeStack|
    decreases last, 0
  {
    match last
    case Some(Return(values)) => ExpressionsAboveDefault(versionFile, state, values);
    case _ =>
  }

  lemma {:induction false} ProcessStatementAboveDefault(versionFile: VersionFile, state: ResolverState, statement: Statement)
    requires Walking(versionFile, state)
    ensures var r := ProcessStatementSpec(versionFile, state, statement).0;
      Walking(versionFile, r) && |r.scopeStack| == |state.scopeStack|
    decreases statement, 0
  {
    if statement.If? && statement.ifStatement.elseIfBranches == []
      && ConditionHasProbe(versionFile, state, statement.ifStatement) && statement.ifStatement.elseBlock.Some?
    {
      var ifStatement := statement.ifStatement;
      ResolveBlockAboveDefault(versionFile, ifStatement.firstBranch.block);
      ResolveBlockAboveDefault(versionFile, ifStatement.elseBlock.value);
      var both := Union(ResolveBlock(versionFile, ifStatement.firstBranch.block), ResolveBlock(versionFile, ifStatement.elseBlock.value));
      UpdateLastKeepsAboveDefault(versionFile, state, both);
    }
  }

  lemma {:induction false} StatementAboveDefault(versionFile: VersionFile, state: ResolverState, statement: Statement)
    requires Walking(versionFile, state)
    ensures var r := WalkStatement(versionFile, state, statement);
      Walking(versionFile, r) && |r.scopeStack| == |state.scopeStack|
    decreases statement, 2
  {
    ProcessStatementAboveDefault(versionFile, state, statement);
    var (processed, rewritten) := ProcessStatementSpec(versionFile, state, statement);
    if rewritten != statement && rewritten.If? {
      var ifStatement := statement.ifStatement;
      assert rewritten.ifStatement == ClearIfStatement(ifStatement);
      ClearedIfChildrenChangeNothing(versionFile, processed, ifStatement);
    } else {
      StatementChildrenAboveDefault(versionFile, processed, statement);
    }
  }

  lemma {:induction false} StatementChildrenAboveDefault(versionFile: VersionFile, state: ResolverState, statement: Statement)
    requires Walking(versionFile, state)
    ensures var r := WalkStatementChildren(versionFile, state, statement);
      Walking(versionFile, r) && |r.scopeStack| == |state.scopeStack|
    decreases statement, 1
  {
    var r := WalkStatementChildren(versionFile, state, statement);
    match statement
    case Assign(variables, values) =>
      VariablesAboveDefault(versionFile, state, variables);
      var afterVariables := WalkVariables(versionFile, state, variables);
      ExpressionsAboveDefault(versionFile, afterVariables, values);
      assert r == WalkExpressions(versionFile, afterVariables, values);
    case CompoundAssign(_, variable, value) =>
      VariableAboveDefault(versionFile, state, variable);
      var afterVariable := WalkVariable(versionFile, state, variable);
      ExpressionAboveDefault(versionFile, afterVariable, value);
      assert r == WalkExpression(versionFile, afterVariable, value);
    case CallStatement(call) =>
      FunctionCallAboveDefault(versionFile, state, call);
      assert r == WalkFunctionCall(versionFile, state, call);
    case Do(block) =>
      BlockAboveDefault(versionFile, state, block);
      assert r == WalkBlock(versionFile, state, block);
    case FunctionStatement(_, parameters, body) =>
      ScopedBlockAboveDefault(versionFile, state, ParameterNames(parameters), body);
      assert r == WalkScopedBody(versionFile, state, ParameterNames(parameters), body);
    case GenericFor(identifiers, expressions, body) =>
      ExpressionsAboveDefault(versionFile, state, expressions);
      var afterExpressions := WalkExpressions(versionFile, state, expressions);
      ScopedBlockAboveDefault(versionFile, afterExpressions, identifiers, body);
      assert r == WalkScopedBody(versionFile, afterExpressions, identifiers, body);
    case If(ifStatement) => IfChildrenAboveDefault(versionFile, state, ifStatement);
    case LocalAssign(variables, values) =>
      ExpressionsAboveDefault(versionFile, state, values);
      var afterValues := WalkExpressions(versionFile, state, values);
      InsertLocalsAboveDefault(versionFile, afterValues, variables, values);
      assert r == InsertLocals(afterValues, variables, values);
    case LocalFunction(_, parameters, body) =>
      ScopedBlockAboveDefault(versionFile, state, ParameterNames(parameters), body);
      assert r == WalkScopedBody(versionFile, state, ParameterNames(parameters), body);
    case NumericFor(_, _, _, _, _) => NumericForAboveDefault(versionFile, state, statement);
    case Repeat(_, _) => RepeatAboveDefault(versionFile, state, statement);
    case While(condition, body) =>
      ExpressionAboveDefault(versionFile, state, condition);
      var afterCondition := WalkExpression(versionFile, state, condition);
      BlockAboveDefault(versionFile, afterCondition, body);
      assert r == WalkBlock(versionFile, afterCondition, body);
    case TypeDeclarationStatement(_) =>
      assert r == state;
  }

  /** A numeric `for`: start, end and step in the enclosing scope, the body in a scope of its own. */
  lemma {:induction false} NumericForAboveDefault(versionFile: VersionFile, state: ResolverState, statement: Statement)
    requires Walking(versionFile, state) && statement.NumericFor?
    ensures var r := WalkStatementChildren(versionFile, state, statement);
      Walking(versionFile, r) && |r.scopeStack| == |state.scopeStack|
    decreases statement, 0
  {
    var start, end, step, body := statement.start, statement.end, statement.step, statement.numericForBody;
    ExpressionAboveDefault(versionFile, state, start);
    var afterStart := WalkExpression(versionFile, state, start);
    ExpressionAboveDefault(versionFile, afterStart, end);
    var afterEnd := WalkExpression(versionFile, afterStart, end);
    if step.Some? {
      ExpressionAboveDefault(versionFile, afterEnd, step.value);
    }
    var afterStep := WalkOptionalExpression(versionFile, afterEnd, step);
    ScopedBlockAboveDefault(versionFile, afterStep, [statement.forIdentifier], body);
    assert WalkStatementChildren(versionFile, state, statement) == WalkScopedBody(versionFile, afterStep, [statement.forIdentifier], body);
  }

  lemma {:induction false} IfChildrenAboveDefault(versionFile: VersionFile, state: ResolverState, ifStatement: IfStatement)
    requires Walking(versionFile, state)
    ensures var r := WalkStatementChildren(versionFile, state, If(ifStatement));
      Walking(versionFile, r) && |r.scopeStack| == |state.scopeStack|
    decreases ifStatement, 0
  {
    BranchAboveDefault(versionFile, state, ifStatement.firstBranch);
    var afterFirst := WalkBranch(versionFile, state, ifStatement.firstBranch);
    BranchesAboveDefault(versionFile, afterFirst, ifStatement.elseIfBranches);
    var afterBranches := WalkBranches(versionFile, afterFirst, ifStatement.elseIfBranches);
    if ifStatement.elseBlock.Some? {
      BlockAboveDefault(versionFile, afterBranches, ifStatement.elseBlock.value);
    }
    IfChildrenWalk(versionFile, state, ifStatement);
  }

  /** `repeat`: the body's statements and the condition share one scope. */
  lemma {:induction false} RepeatAboveDefault(versionFile: VersionFile, state: ResolverState, statement: Statement)
    requires Walking(versionFile, state) && statement.Repeat?
    ensures var r := WalkStatementChildren(versionFile, state, statement);
      Walking(versionFile, r) && |r.scopeStack| == |state.scopeStack|
    decreases statement, 0
  {
    var body, condition := statement.repeatBody, statement.untilCondition;
    PushKeepsAboveDefault(versionFile, state);
    var pushed := PushState(versionFile, state);
    StatementsAboveDefault(versionFile, pushed, body.statements);
    var inner := WalkStatements(versionFile, pushed, body.statements);
    LastStatementAboveDefault(versionFile, inner, body.lastStatement);
    var afterLast := WalkLastStatement(versionFile, inner, body.lastStatement);
    ExpressionAboveDefault(versionFile, afterLast, condition);
    PopKeepsAboveDefault(versionFile, WalkExpression(versionFile, afterLast, condition));
  }

  lemma {:induction false} InsertLocalsAboveDefault(versionFile: VersionFile, state: ResolverState, variables: seq<TypedIdentifier>, values: seq<Expression>)
    requires Walking(versionFile, state)
    ensures var r := InsertLocals(state, variables, values);
      Walking(versionFile, r) && |r.scopeStack| == |state.scopeStack|
    decreases |variables|
  {
    if variables != [] {
      var value := if values != [] then Some(values[0]) else None;
      InsertLocalsAboveDefault(versionFile, InsertLocalState(state, variables[0].name, value), variables[1..], if values != [] then values[1..] else []);
    }
  }

  lemma {:induction false} BranchesAboveDefault(versionFile: VersionFile, state: ResolverState, branches: seq<IfBranch>)
    requires Walking(versionFile, state)
    ensures var r := WalkBranches(versionFile, state, branches);
      Walking(versionFile, r) && |r.scopeStack| == |state.scopeStack|
    decreases branches, 0
  {
    if branches != [] {
      BranchAboveDefault(versionFile, state, branches[0]);
      BranchesAboveDefault(versionFile, WalkBranch(versionFile, state, branches[0]), branches[1..]);
    }
  }

  lemma {:induction false} BranchAboveDefault(versionFile: VersionFile, state: ResolverState, branch: IfBranch)
    requires Walking(versionFile, state)
    ensures var r := WalkBranch(versionFile, state, branch);
      Walking(versionFile, r) && |r.scopeStack| == |state.scopeStack|
    decreases branch, 0
  {
    ExpressionAboveDefault(versionFile, state, branch.condition);
    BlockAboveDefault(versionFile, WalkExpression(versionFile, state, branch.condition), branch.block);
  }

  lemma {:induction false} VariablesAboveDefault(versionFile: VersionFile, state: ResolverState, variables: seq<Variable>)
    requires Walking(versionFile, state)
    ensures var r := WalkVariables(versionFile, state, variables);
      Walking(versionFile, r) && |r.scopeStack| == |state.scopeStack|
    decreases variables, 0
  {
    if variables != [] {
      VariableAboveDefault(versionFile, state, variables[0]);
      VariablesAboveDefault(versionFile, WalkVariable(versionFile, state, variables[0]), variables[1..]);
    }
  }

  lemma {:induction false} VariableAboveDefault(versionFile: VersionFile, state: ResolverState, variable: Variable)
    requires Walking(versionFile, state)
    ensures var r := WalkVariable(versionFile, state, variable);
      Walking(versionFile, r) && |r.scopeStack| == |state.scopeStack|
    decreases variable, 0
  {
    match variable
    case VariableIdentifier(_) =>
    case VariableField(fieldExpression) => PrefixAboveDefault(versionFile, state, fieldExpression.prefix);
    case VariableIndex(indexExpression) => IndexAboveDefault(versionFile, state, indexExpression);
  }

  lemma {:induction false} ExpressionsAboveDefault(versionFile: VersionFile, state: ResolverState, expressions: seq<Expression>)
    requires Walking(versionFile, state)
    ensures var r := WalkExpressions(versionFile, state, expressions);
      Walking(versionFile, r) && |r.scopeStack| == |state.scopeStack|
    decreases expressions, 0
  {
    if expressions != [] {
      ExpressionAboveDefault(versionFile, state, expressions[0]);
      ExpressionsAboveDefault(versionFile, WalkExpression(versionFile, state, expressions[0]), expressions[1..]);
    }
  }

  lemma {:induction false} ExpressionAboveDefault(versionFile: VersionFile, state: ResolverState, expression: Expression)
    requires Walking(versionFile, state)
    ensures var r := WalkExpression(versionFile, state, expression);
      Walking(versionFile, r) && |r.scopeStack| == |state.scopeStack|
    decreases expression, 1
  {
    var r := WalkExpression(versionFile, state, expression);
    match expression
    case Field(fieldExpression) =>
      assert r == WalkPrefix(versionFile, state, fieldExpression.prefix);
      PrefixAboveDefault(versionFile, state, fieldExpression.prefix);
    case Index(indexExpression) =>
      assert r == WalkIndex(versionFile, state, indexExpression);
      IndexAboveDefault(versionFile, state, indexExpression);
    case Call(call) =>
      assert r == WalkFunctionCall(versionFile, state, call);
      FunctionCallAboveDefault(versionFile, state, call);
    case Binary(_, _, _) => BinaryAboveDefault(versionFile, state, expression);
    case Unary(_, operand) =>
      assert r == WalkExpression(versionFile, state, operand);
      ExpressionAboveDefault(versionFile, state, operand);
    case Parenthese(inner) =>
      assert r == WalkExpression(versionFile, state, inner);
      ExpressionAboveDefault(versionFile, state, inner);
    case FunctionExpression(parameters, body) =>
      assert r == WalkScopedBody(versionFile, state, ParameterNames(parameters), body);
      ScopedBlockAboveDefault(versionFile, state, ParameterNames(parameters), body);
    case Table(entries) =>
      assert r == WalkTableEntries(versionFile, state, entries);
      TableEntriesAboveDefault(versionFile, state, entries);
    case IfExpression(_, _, _, _) => IfExpressionAboveDefault(versionFile, state, expression);
    case InterpolatedString(segments) =>
      assert r == WalkSegments(versionFile, state, segments);
      SegmentsAboveDefault(versionFile, state, segments);
    case TypeCast(value, _) =>
      assert r == WalkExpression(versionFile, state, value);
      ExpressionAboveDefault(versionFile, state, value);
    case _ =>
      assert r == state;
  }

  lemma {:induction false} IfExpressionAboveDefault(versionFile: VersionFile, state: ResolverState, expression: Expression)
    requires Walking(versionFile, state) && expression.IfExpression?
    ensures var r := WalkExpression(versionFile, state, expression);
      Walking(versionFile, r) && |r.scopeStack| == |state.scopeStack|
    decreases expression, 0
  {
    var afterCondition := WalkExpression(versionFile, state, expression.ifCondition);
    ExpressionAboveDefault(versionFile, state, expression.ifCondition);
    var afterResult := WalkExpression(versionFile, afterCondition, expression.ifResult);
    ExpressionAboveDefault(versionFile, afterCondition, expression.ifResult);
    ElseIfResultsAboveDefault(versionFile, afterResult, expression.elseIfResults);
    ExpressionAboveDefault(versionFile, WalkElseIfResults(versionFile, afterResult, expression.elseIfResults), expression.elseResult);
  }

  lemma {:induction false} ElseIfResultsAboveDefault(versionFile: VersionFile, state: ResolverState, branches: seq<ElseIfResult>)
    requires Walking(versionFile, state)
    ensures var r := WalkElseIfResults(versionFile, state, branches);
      Walking(versionFile, r) && |r.scopeStack| == |state.scopeStack|
    decreases branches, 0
  {
    if branches != [] {
      ElseIfResultAboveDefault(versionFile, state, branches[0]);
      ElseIfResultsAboveDefault(versionFile, WalkElseIfResult(versionFile, state, branches[0]), branches[1..]);
    }
  }

  lemma {:induction false} ElseIfResultAboveDefault(versionFile: VersionFile, state: ResolverState, branch: ElseIfResult)
    requires Walking(versionFile, state)
    ensures var r := WalkElseIfResult(versionFile, state, branch);
      Walking(versionFile, r) && |r.scopeStack| == |state.scopeStack|
    decreases branch, 0
  {
    ExpressionAboveDefault(versionFile, state, branch.branchCondition);
    ExpressionAboveDefault(versionFile, WalkExpression(versionFile, state, branch.branchCondition), branch.branchResult);
  }

  lemma {:induction false} SegmentsAboveDefault(versionFile: VersionFile, state: ResolverState, segments: seq<StringSegment>)
    requires Walking(versionFile, state)
    ensures var r := WalkSegments(versionFile, state, segments);
      Walking(versionFile, r) && |r.scopeStack| == |state.scopeStack|
    decreases segments, 0
  {
    if segments != [] {
      SegmentAboveDefault(versionFile, state, segments[0]);
      SegmentsAboveDefault(versionFile, WalkSegment(versionFile, state, segments[0]), segments[1..]);
    }
  }

  lemma {:induction false} SegmentAboveDefault(versionFile: VersionFile, state: ResolverState, segment: StringSegment)
    requires Walking(versionFile, state)
    ensures var r := WalkSegment(versionFile, state, segment);
      Walking(versionFile, r) && |r.scopeStack| == |state.scopeStack|
    decreases segment, 0
  {
    match segment
    case TextSegment(_) =>
    case ValueSegment(value) => ExpressionAboveDefault(versionFile, state, value);
  }

  lemma {:induction false} BinaryAboveDefault(versionFile: VersionFile, state: ResolverState, expression: Expression)
    requires Walking(versionFile, state) && expression.Binary?
    ensures var r := WalkExpression(versionFile, state, expression);
      Walking(versionFile, r) && |r.scopeStack| == |state.scopeStack|
    decreases expression, 0
  {
    var left, right := expression.left, expression.right;
    ExpressionAboveDefault(versionFile, state, left);
    ExpressionAboveDefault(versionFile, WalkExpression(versionFile, state, left), right);
  }

  lemma {:induction false} IndexAboveDefault(versionFile: VersionFile, state: ResolverState, indexExpression: IndexExpression)
    requires Walking(versionFile, state)
    ensures var r := WalkIndex(versionFile, state, indexExpression);
      Walking(versionFile, r) && |r.scopeStack| == |state.scopeStack|
    decreases indexExpression, 0
  {
    PrefixAboveDefault(versionFile, state, indexExpression.prefix);
    ExpressionAboveDefault(versionFile, WalkPrefix(versionFile, state, indexExpression.prefix), indexExpression.index);
  }

  lemma {:induction false} PrefixAboveDefault(versionFile: VersionFile, state: ResolverState, prefix: Prefix)
    requires Walking(versionFile, state)
    ensures var r := WalkPrefix(versionFile, state, prefix);
      Walking(versionFile, r) && |r.scopeStack| == |state.scopeStack|
    decreases prefix, 0
  {
    match prefix
    case PrefixIdentifier(_) =>
    case PrefixField(fieldExpression) => PrefixAboveDefault(versionFile, state, fieldExpression.prefix);
    case PrefixIndex(indexExpression) => IndexAboveDefault(versionFile, state, indexExpression);
    case PrefixCall(call) => FunctionCallAboveDefault(versionFile, state, call);
    case PrefixParenthese(inner) => ExpressionAboveDefault(versionFile, state, inner);
  }

  lemma {:induction false} FunctionCallAboveDefault(versionFile: VersionFile, state: ResolverState, call: FunctionCall)
    requires Walking(versionFile, state)
    ensures var r := WalkFunctionCall(versionFile, state, call);
      Walking(versionFile, r) && |r.scopeStack| == |state.scopeStack|
    decreases call, 0
  {
    var processed := ProcessFunctionCallState(versionFile, state, call);
    if MappedName(call).Some? && MappedName(call).value in versionFile.functionMappings {
      UpdateLastKeepsAboveDefault(versionFile, state, MappingVersion(versionFile.functionMappings[MappedName(call).value]));
    }
    PrefixAboveDefault(versionFile, processed, call.prefix);
    ArgumentsAboveDefault(versionFile, WalkPrefix(versionFile, processed, call.prefix), call.arguments);
  }

  lemma {:induction false} ArgumentsAboveDefault(versionFile: VersionFile, state: ResolverState, arguments: Arguments)
    requires Walking(versionFile, state)
    ensures var r := WalkArguments(versionFile, state, arguments);
      Walking(versionFile, r) && |r.scopeStack| == |state.scopeStack|
    decreases arguments, 0
  {
    match arguments
    case Tuple(values) => ExpressionsAboveDefault(versionFile, state, values);
    case ArgumentString(_) =>
    case ArgumentTable(entries) => TableEntriesAboveDefault(versionFile, state, entries);
  }

  lemma {:induction false} TableEntriesAboveDefault(versionFile: VersionFile, state: ResolverState, entries: seq<TableEntry>)
    requires Walking(versionFile, state)
    ensures var r := WalkTableEntries(versionFile, state, entries);
      Walking(versionFile, r) && |r.scopeStack| == |state.scopeStack|
    decreases entries, 0
  {
    if entries != [] {
      TableEntryAboveDefault(versionFile, state, entries[0]);
      TableEntriesAboveDefault(versionFile, WalkTableEntry(versionFile, state, entries[0]), entries[1..]);
    }
  }

  lemma {:induction false} TableEntryAboveDefault(versionFile: VersionFile, state: ResolverState, entry: TableEntry)
    requires Walking(versionFile, state)
    ensures var r := WalkTableEntry(versionFile, state, entry);
      Walking(versionFile, r) && |r.scopeStack| == |state.scopeStack|
    decreases entry, 0
  {
    match entry
    case FieldEntry(_, value) => ExpressionAboveDefault(versionFile, state, value);
    case IndexEntry(key, value) =>
      ExpressionAboveDefault(versionFile, state, key);
      ExpressionAboveDefault(versionFile, WalkExpression(versionFile, state, key), value);
    case ValueEntry(value) => ExpressionAboveDefault(versionFile, state, value);
  }
}
