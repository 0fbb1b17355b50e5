// `VersionResolver` (src/commands/version/version_visitor.rs) as an object whose fields the
// callbacks update in place, together with the scope-visitor driver that calls them. Every
// method is proved to compute the corresponding function of module VersionWalk.
module VersionResolution {
  import opened Wrappers
  import opened LuaAst
  import opened SdkVersion
  import opened ScopedMap
  import opened HasCallToFunction
  import opened VersionWalk

  class VersionResolver {
    var variableScope: VariableScope
    var scopeStack: seq<SdkVersionOut>
    var scopeData: SdkVersionOut
    const versionFile: VersionFile

    /** The resolver's fields as a value. */
    function State(): ResolverState
      reads this
    {
      ResolverState(variableScope, scopeStack, scopeData)
    }

    /** `VersionResolver::new`. */
    constructor (versionFile: VersionFile)
      ensures this.versionFile == versionFile
      ensures State() == NewState(versionFile)
    {
      this.versionFile := versionFile;
      variableScope := ScopedMap.Default();
      scopeStack := [];
      scopeData := New(DefaultVersion(versionFile));
    }

    /** `sdk_version`: the interval of the walk so far. */
    function SdkVersion(): SdkVersionOut
      reads this
    {
      scopeData
    }

    /** `update_last_scope_data`. */
    method UpdateLastScopeData(version: SdkVersionOut)
      modifies this
      ensures State() == VersionWalk.UpdateLastScopeData(old(State()), version)
    {
      if scopeStack == [] {
        scopeData := scopeData.(minSdkVersion := version.minSdkVersion, maxSdkVersion := version.maxSdkVersion);
      } else {
        var n := |scopeStack|;
        scopeStack := scopeStack[n - 1 := UpdateScopeData(scopeStack[n - 1], version)];
        assert scopeStack == old(scopeStack)[..n - 1] + [UpdateScopeData(old(scopeStack)[n - 1], version)];
      }
    }

    /** `Scope::push`. */
    method Push()
      modifies this
      ensures State() == PushState(versionFile, old(State()))
    {
      scopeStack := scopeStack + [New(DefaultVersion(versionFile))];
      variableScope := ScopedMap.Push(variableScope);
    }

    /** `Scope::pop`. */
    method Pop()
      modifies this
      ensures State() == PopState(old(State()))
    {
      ghost var before := State();
      ghost var popped := ScopedMap.Pop(variableScope);
      if scopeStack != [] {
        var current := scopeStack[|scopeStack| - 1];
        scopeStack := scopeStack[..|scopeStack| - 1];
        if scopeStack == [] {
          scopeData := scopeData.(minSdkVersion := current.minSdkVersion, maxSdkVersion := current.maxSdkVersion);
        } else {
          var n := |scopeStack|;
          var previous := scopeStack[n - 1];
          var raised := previous.(minSdkVersion := if previous.minSdkVersion >= current.minSdkVersion then previous.minSdkVersion else current.minSdkVersion);
          scopeStack := scopeStack[n - 1 := raised];
          assert scopeStack == old(scopeStack)[..n][..n - 1] + [raised];
          var merged := Intersection(raised, current);
          ghost var beforeUpdate := State();
          assert PopState(before) == VersionWalk.UpdateLastScopeData(beforeUpdate.(variableScope := popped), merged);
          UpdateLastScopeData(merged);
          UpdateLastKeepsBindings(beforeUpdate, merged, popped);
        }
      }
      variableScope := ScopedMap.Pop(variableScope);
    }

    /** `Scope::insert_local`. */
    method InsertLocal(name: string, value: Option<Expression>)
      modifies this
      ensures State() == InsertLocalState(old(State()), name, value)
    {
      variableScope := ScopedMap.Insert(variableScope, name, value);
    }

    /**
      * `Scope::insert`, for a parameter or loop identifier: the resolver records nothing.
      */
    method Insert(identifier: string)
      ensures State() == InsertIdentifiers(old(State()), [identifier])
    {
    }

    /** `process_function_call`. */
    method ProcessFunctionCall(call: FunctionCall)
      modifies this
      ensures State() == ProcessFunctionCallState(versionFile, old(State()), call)
    {
      if call.methodName.Some? {
        return;
      }
      var name := CalleeName(call.prefix);
      if name.Some? {
        var functionName := name.value;
        if functionName == "pcall" {
          var target := PcallTarget(call.arguments);
          if target.None? {
            return;
          }
          functionName := target.value;
        }
        if functionName in versionFile.functionMappings {
          UpdateLastScopeData(MappingVersion(versionFile.functionMappings[functionName]));
        }
      }
    }

    /**
      * `process_statement`: returns the statement as it stands afterwards, cleared when
      * it was a probe-guarded single-branch `if`.
      */
    method ProcessStatement(statement: Statement) returns (rewritten: Statement)
      modifies this
      ensures (State(), rewritten) == ProcessStatementSpec(versionFile, old(State()), statement)
      decreases statement, 0
    {
      rewritten := statement;
      if statement.If? && statement.ifStatement.elseIfBranches == [] {
        var ifStatement := statement.ifStatement;
        var detector := new HasCallToFunctionVisitor(versionFile.sdkVersionFunction, variableScope);
        detector.VisitExpression(ifStatement.firstBranch.condition);
        if !detector.HasCallToFunction() {
          return;
        }
        match ifStatement.elseBlock {
          case Some(elseBlock) =>
            var ifResolver := new VersionResolver(versionFile);
            ifResolver.VisitBlock(ifStatement.firstBranch.block);
            var ifVersion := ifResolver.SdkVersion();
            var elseResolver := new VersionResolver(versionFile);
            elseResolver.VisitBlock(elseBlock);
            var elseVersion := elseResolver.SdkVersion();
            UpdateLastScopeData(Union(ifVersion, elseVersion));
            rewritten := If(ClearIfStatement(ifStatement));
          case None =>
            rewritten := If(ClearIfStatement(ifStatement));
        }
      }
    }

    // ---- the scope-visitor driver: the callbacks in visit order ----

    method VisitBlock(block: Block)
      modifies this
      ensures State() == WalkBlock(versionFile, old(State()), block)
      decreases block, 2
    {
      Push();
      VisitStatements(block.statements);
      VisitLastStatement(block.lastStatement);
      Pop();
    }

    method VisitStatements(statements: seq<Statement>)
      modifies this
      ensures State() == WalkStatements(versionFile, old(State()), statements)
      decreases statements, 0
    {
      var i := 0;
      while i < |statements|
        invariant 0 <= i <= |statements|
        invariant WalkStatements(versionFile, old(State()), statements) == WalkStatements(versionFile, State(), statements[i..])
      {
        assert statements[i..][1..] == statements[i + 1..];
        VisitStatement(statements[i]);
        i := i + 1;
      }
    }

    method VisitLastStatement(last: Option<LastStatement>)
      modifies this
      ensures State() == WalkLastStatement(versionFile, old(State()), last)
      decreases last, 0
    {
      match last {
        case Some(Return(values)) => VisitExpressions(values);
        case _ =>
      }
    }

    method VisitStatement(statement: Statement)
      modifies this
      ensures State() == WalkStatement(versionFile, old(State()), statement)
      decreases statement, 2
    {
      var rewritten := ProcessStatement(statement);
      if rewritten != statement && rewritten.If? {
        VisitClearedIfChildren(rewritten.ifStatement);
      } else {
        VisitStatementChildren(statement);
      }
    }

    /** The children of a cleared `if`: one empty block per branch, and one for the else block. */
    method VisitClearedIfChildren(ifStatement: IfStatement)
      modifies this
      ensures State() == WalkClearedIfChildren(versionFile, old(State()), ifStatement)
    {
      var count := |ifStatement.Branches()|;
      var i := 0;
      while i < count
        invariant 0 <= i <= count
        invariant WalkEmptyBlocks(versionFile, old(State()), count) == WalkEmptyBlocks(versionFile, State(), count - i)
      {
        Push();
        Pop();
        i := i + 1;
      }
      if ifStatement.elseBlock.Some? {
        Push();
        Pop();
      }
    }

    method VisitStatementChildren(statement: Statement)
      modifies this
      ensures State() == WalkStatementChildren(versionFile, old(State()), statement)
      decreases statement, 1
    {
      ghost var before := State();
      match statement {
        case Assign(variables, values) =>
          VisitVariables(variables);
          ghost var afterVariables := State();
          VisitExpressions(values);
          assert WalkStatementChildren(versionFile, before, statement) == WalkExpressions(versionFile, afterVariables, values);
        case CompoundAssign(_, variable, value) =>
          VisitVariable(variable);
          ghost var afterVariable := State();
          VisitExpression(value);
          assert WalkStatementChildren(versionFile, before, statement) == WalkExpression(versionFile, afterVariable, value);
        case CallStatement(call) =>
          VisitFunctionCall(call);
          assert WalkStatementChildren(versionFile, before, statement) == WalkFunctionCall(versionFile, before, call);
        case Do(block) =>
          VisitBlock(block);
          assert WalkStatementChildren(versionFile, before, statement) == WalkBlock(versionFile, before, block);
        case FunctionStatement(_, parameters, body) =>
          VisitScopedBlock(ParameterNames(parameters), body);
          assert WalkStatementChildren(versionFile, before, statement) == WalkScopedBody(versionFile, before, ParameterNames(parameters), body);
        case GenericFor(identifiers, expressions, body) =>
          VisitExpressions(expressions);
          ghost var afterExpressions := State();
          VisitScopedBlock(identifiers, body);
          assert WalkStatementChildren(versionFile, before, statement) == WalkScopedBody(versionFile, afterExpressions, identifiers, body);
        case If(_) => VisitIfChildren(statement);
        case LocalAssign(variables, values) =>
          VisitExpressions(values);
          ghost var afterValues := State();
          InsertLocals(variables, values);
          assert WalkStatementChildren(versionFile, before, statement) == VersionWalk.InsertLocals(afterValues, variables, values);
        case LocalFunction(_, parameters, body) =>
          VisitScopedBlock(ParameterNames(parameters), body);
          assert WalkStatementChildren(versionFile, before, statement) == WalkScopedBody(versionFile, before, ParameterNames(parameters), body);
        case NumericFor(_, _, _, _, _) => VisitNumericFor(statement);
        case Repeat(_, _) => VisitRepeat(statement);
        case While(condition, body) =>
          VisitExpression(condition);
          ghost var afterCondition := State();
          VisitBlock(body);
          assert WalkStatementChildren(versionFile, before, statement) == WalkBlock(versionFile, afterCondition, body);
        case TypeDeclarationStatement(_) =>
          assert WalkStatementChildren(versionFile, before, statement) == before;
      }
    }

    /**
      * A function or loop body: a scope of its own, `insert` for each parameter or loop
      * identifier, the body's block, and the scope's pop.
      */
    method VisitScopedBlock(identifiers: seq<string>, body: Block)
      modifies this
      ensures State() == WalkScopedBody(versionFile, old(State()), identifiers, body)
      decreases body, 4
    {
      Push();
      ghost var pushed := State();
      for i := 0 to |identifiers|
        invariant State() == InsertIdentifiers(pushed, identifiers[..i])
      {
        Insert(identifiers[i]);
      }
      VisitBlock(body);
      Pop();
    }

    method VisitIfChildren(statement: Statement)
      requires statement.If?
      modifies this
      ensures State() == WalkStatementChildren(versionFile, old(State()), statement)
      decreases statement, 0
    {
      var ifStatement := statement.ifStatement;
      VisitBranch(ifStatement.firstBranch);
      VisitBranches(ifStatement.elseIfBranches);
      if ifStatement.elseBlock.Some? {
        VisitBlock(ifStatement.elseBlock.value);
      }
    }

    method VisitNumericFor(statement: Statement)
      requires statement.NumericFor?
      modifies this
      ensures State() == WalkStatementChildren(versionFile, old(State()), statement)
      decreases statement, 0
    {
      VisitExpression(statement.start);
      VisitExpression(statement.end);
      if statement.step.Some? {
        VisitExpression(statement.step.value);
      }
      ghost var afterStep := State();
      VisitScopedBlock([statement.forIdentifier], statement.numericForBody);
      assert WalkStatementChildren(versionFile, old(State()), statement) == WalkScopedBody(versionFile, afterStep, [statement.forIdentifier], statement.numericForBody);
    }

    /** `repeat`: the body's statements and the condition share one scope. */
    method VisitRepeat(statement: Statement)
      requires statement.Repeat?
      modifies this
      ensures State() == WalkStatementChildren(versionFile, old(State()), statement)
      decreases statement, 0
    {
      Push();
      VisitStatements(statement.repeatBody.statements);
      VisitLastStatement(statement.repeatBody.lastStatement);
      VisitExpression(statement.untilCondition);
      Pop();
    }

    /** `insert_local` for each name of a local assignment, with its value when there is one. */
    method InsertLocals(variables: seq<TypedIdentifier>, values: seq<Expression>)
      modifies this
      ensures State() == VersionWalk.InsertLocals(old(State()), variables, values)
    {
      var i := 0;
      while i < |variables|
        invariant 0 <= i <= |variables|
        invariant VersionWalk.InsertLocals(old(State()), variables, values)
          == VersionWalk.InsertLocals(State(), variables[i..], ValuesFrom(values, i))
      {
        ghost var current := State();
        var value := if i < |values| then Some(values[i]) else None;
        InsertLocalsStep(current, variables, values, i);
        InsertLocal(variables[i].name, value);
        i := i + 1;
      }
    }

    method VisitBranches(branches: seq<IfBranch>)
      modifies this
      ensures State() == WalkBranches(versionFile, old(State()), branches)
      decreases branches, 0
    {
      var i := 0;
      while i < |branches|
        invariant 0 <= i <= |branches|
        invariant WalkBranches(versionFile, old(State()), branches) == WalkBranches(versionFile, State(), branches[i..])
      {
        assert branches[i..][1..] == branches[i + 1..];
        VisitBranch(branches[i]);
        i := i + 1;
      }
    }

    method VisitBranch(branch: IfBranch)
      modifies this
      ensures State() == WalkBranch(versionFile, old(State()), branch)
      decreases branch, 0
    {
      VisitExpression(branch.condition);
      VisitBlock(branch.block);
    }

    method VisitVariables(variables: seq<Variable>)
      modifies this
      ensures State() == WalkVariables(versionFile, old(State()), variables)
      decreases variables, 0
    {
      var i := 0;
      while i < |variables|
        invariant 0 <= i <= |variables|
        invariant WalkVariables(versionFile, old(State()), variables) == WalkVariables(versionFile, State(), variables[i..])
      {
        assert variables[i..][1..] == variables[i + 1..];
        VisitVariable(variables[i]);
        i := i + 1;
      }
    }

    method VisitVariable(variable: Variable)
      modifies this
      ensures State() == WalkVariable(versionFile, old(State()), variable)
      decreases variable, 0
    {
      match variable {
        case VariableIdentifier(_) =>
        case VariableField(fieldExpression) => VisitPrefix(fieldExpression.prefix);
        case VariableIndex(indexExpression) => VisitIndex(indexExpression);
      }
    }

    method VisitExpressions(expressions: seq<Expression>)
      modifies this
      ensures State() == WalkExpressions(versionFile, old(State()), expressions)
      decreases expressions, 0
    {
      var i := 0;
      while i < |expressions|
        invariant 0 <= i <= |expressions|
        invariant WalkExpressions(versionFile, old(State()), expressions) == WalkExpressions(versionFile, State(), expressions[i..])
      {
        assert expressions[i..][1..] == expressions[i + 1..];
        VisitExpression(expressions[i]);
        i := i + 1;
      }
    }

    method VisitExpression(expression: Expression)
      modifies this
      ensures State() == WalkExpression(versionFile, old(State()), expression)
      decreases expression, 1
    {
      ghost var before := State();
      match expression {
        case Field(fieldExpression) =>
          VisitPrefix(fieldExpression.prefix);
          assert WalkExpression(versionFile, before, expression) == WalkPrefix(versionFile, before, fieldExpression.prefix);
        case Index(indexExpression) =>
          VisitIndex(indexExpression);
          assert WalkExpression(versionFile, before, expression) == WalkIndex(versionFile, before, indexExpression);
        case Call(call) =>
          VisitFunctionCall(call);
          assert WalkExpression(versionFile, before, expression) == WalkFunctionCall(versionFile, before, call);
        case Binary(_, _, _) => VisitBinary(expression);
        case Unary(_, operand) =>
          VisitExpression(operand);
          assert WalkExpression(versionFile, before, expression) == WalkExpression(versionFile, before, operand);
        case Parenthese(inner) =>
          VisitExpression(inner);
          assert WalkExpression(versionFile, before, expression) == WalkExpression(versionFile, before, inner);
        case FunctionExpression(parameters, body) =>
          VisitScopedBlock(ParameterNames(parameters), body);
          assert WalkExpression(versionFile, before, expression) == WalkScopedBody(versionFile, before, ParameterNames(parameters), body);
        case Table(entries) =>
          VisitTableEntries(entries);
          assert WalkExpression(versionFile, before, expression) == WalkTableEntries(versionFile, before, entries);
        case IfExpression(_, _, _, _) => VisitIfExpression(expression);
        case InterpolatedString(segments) =>
          VisitSegments(segments);
          assert WalkExpression(versionFile, before, expression) == WalkSegments(versionFile, before, segments);
        case TypeCast(value, _) =>
          VisitExpression(value);
          assert WalkExpression(versionFile, before, expression) == WalkExpression(versionFile, before, value);
        case _ =>
          assert WalkExpression(versionFile, before, expression) == before;
      }
    }

    method VisitBinary(expression: Expression)
      requires expression.Binary?
      modifies this
      ensures State() == WalkExpression(versionFile, old(State()), expression)
      decreases expression, 0
    {
      VisitExpression(expression.left);
      VisitExpression(expression.right);
    }

    /** An if-expression: its condition and result, each `elseif` pair, then the `else` result. */
    method VisitIfExpression(expression: Expression)
      requires expression.IfExpression?
      modifies this
      ensures State() == WalkExpression(versionFile, old(State()), expression)
      decreases expression, 0
    {
      VisitExpression(expression.ifCondition);
      VisitExpression(expression.ifResult);
      VisitElseIfResults(expression.elseIfResults);
      VisitExpression(expression.elseResult);
    }

    method VisitElseIfResults(branches: seq<ElseIfResult>)
      modifies this
      ensures State() == WalkElseIfResults(versionFile, old(State()), branches)
      decreases branches, 0
    {
      var i := 0;
      while i < |branches|
        invariant 0 <= i <= |branches|
        invariant WalkElseIfResults(versionFile, old(State()), branches) == WalkElseIfResults(versionFile, State(), branches[i..])
      {
        assert branches[i..][1..] == branches[i + 1..];
        VisitElseIfResult(branches[i]);
        i := i + 1;
      }
    }

    method VisitElseIfResult(branch: ElseIfResult)
      modifies this
      ensures State() == WalkElseIfResult(versionFile, old(State()), branch)
      decreases branch, 0
    {
      VisitExpression(branch.branchCondition);
      VisitExpression(branch.branchResult);
    }

    /** The `{value}` segments of an interpolated string, in order. */
    method VisitSegments(segments: seq<StringSegment>)
      modifies this
      ensures State() == WalkSegments(versionFile, old(State()), segments)
      decreases segments, 0
    {
      var i := 0;
      while i < |segments|
        invariant 0 <= i <= |segments|
        invariant WalkSegments(versionFile, old(State()), segments) == WalkSegments(versionFile, State(), segments[i..])
      {
        assert segments[i..][1..] == segments[i + 1..];
        VisitSegment(segments[i]);
        i := i + 1;
      }
    }

    method VisitSegment(segment: StringSegment)
      modifies this
      ensures State() == WalkSegment(versionFile, old(State()), segment)
      decreases segment, 0
    {
      match segment {
        case TextSegment(_) =>
        case ValueSegment(value) => VisitExpression(value);
      }
    }

    method VisitIndex(indexExpression: IndexExpression)
      modifies this
      ensures State() == WalkIndex(versionFile, old(State()), indexExpression)
      decreases indexExpression, 0
    {
      VisitPrefix(indexExpression.prefix);
      VisitExpression(indexExpression.index);
    }

    method VisitPrefix(prefix: Prefix)
      modifies this
      ensures State() == WalkPrefix(versionFile, old(State()), prefix)
      decreases prefix, 0
    {
      match prefix {
        case PrefixIdentifier(_) =>
        case PrefixField(fieldExpression) => VisitPrefix(fieldExpression.prefix);
        case PrefixIndex(indexExpression) => VisitIndex(indexExpression);
        case PrefixCall(call) => VisitFunctionCall(call);
        case PrefixParenthese(inner) => VisitExpression(inner);
      }
    }

    method VisitFunctionCall(call: FunctionCall)
      modifies this
      ensures State() == WalkFunctionCall(versionFile, old(State()), call)
      decreases call, 0
    {
      ProcessFunctionCall(call);
      VisitPrefix(call.prefix);
      VisitArguments(call.arguments);
    }

    method VisitArguments(arguments: Arguments)
      modifies this
      ensures State() == WalkArguments(versionFile, old(State()), arguments)
      decreases arguments, 0
    {
      match arguments {
        case Tuple(values) => VisitExpressions(values);
        case ArgumentString(_) =>
        case ArgumentTable(entries) => VisitTableEntries(entries);
      }
    }

    method VisitTableEntries(entries: seq<TableEntry>)
      modifies this
      ensures State() == WalkTableEntries(versionFile, old(State()), entries)
      decreases entries, 0
    {
      var i := 0;
      while i < |entries|
        invariant 0 <= i <= |entries|
        invariant WalkTableEntries(versionFile, old(State()), entries) == WalkTableEntries(versionFile, State(), entries[i..])
      {
        assert entries[i..][1..] == entries[i + 1..];
        VisitTableEntry(entries[i]);
        i := i + 1;
      }
    }

    method VisitTableEntry(entry: TableEntry)
      modifies this
      ensures State() == WalkTableEntry(versionFile, old(State()), entry)
      decreases entry, 0
    {
      match entry {
        case FieldEntry(_, value) => VisitExpression(value);
        case IndexEntry(key, value) =>
          VisitExpression(key);
          VisitExpression(value);
        case ValueEntry(value) => VisitExpression(value);
      }
    }
  }

  /** The values from the i-th on; none once past the end. */
  function ValuesFrom(values: seq<Expression>, i: nat): (r: seq<Expression>)
    ensures i < |values| ==> r != [] && r[0] == values[i]
    ensures i >= |values| ==> r == []
  {
    if i <= |values| then values[i..] else []
  }

  /** One binding of `InsertLocals`: the i-th name with the i-th value, if any. */
  lemma InsertLocalsStep(state: ResolverState, variables: seq<TypedIdentifier>, values: seq<Expression>, i: nat)
    requires i < |variables|
    ensures VersionWalk.InsertLocals(state, variables[i..], ValuesFrom(values, i))
      == VersionWalk.InsertLocals(InsertLocalState(state, variables[i].name, if i < |values| then Some(values[i]) else None),
           variables[i + 1..], ValuesFrom(values, i + 1))
  {
    assert variables[i..][1..] == variables[i + 1..];
    if i < |values| {
      assert values[i..][1..] == values[i + 1..];
    }
  }

  /**
    * What `compute_dependency_graph` does per module: a fresh resolver walked over a copy of
    * the module's block. The result is never below the default version.
    */
  method ResolveModuleVersion(versionFile: VersionFile, block: Block) returns (version: SdkVersionOut)
    ensures version == ResolveBlock(versionFile, block)
    ensures version.minSdkVersion >= DefaultVersion(versionFile)
  {
    var resolver := new VersionResolver(versionFile);
    resolver.VisitBlock(block);
    version := resolver.SdkVersion();
    ResolveBlockAboveDefault(versionFile, block);
  }
}
