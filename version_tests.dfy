// The resolver on the programs of the unit tests in src/commands/version/version_visitor.rs.
module VersionResolverExamples {
  import opened Wrappers
  import opened LuaAst
  import opened SdkVersion
  import opened HasCallToFunction
  import opened VersionWalk

  /** The version file of the tests: default 10, four gated functions, probe `get_sdk_version`. */
  function TestVersionFile(): VersionFile
  {
    VersionFile(
      Some(10),
      map[
        "get_sdk_version" := FunctionMapping(13, None),
        "at_least_20" := FunctionMapping(20, None),
        "less_than_20" := FunctionMapping(16, Some(19)),
        "global_function_15" := FunctionMapping(15, None)],
      "get_sdk_version")
  }

  function CallOf(name: string, arguments: seq<Expression>): FunctionCall
  {
    FunctionCall(PrefixIdentifier(name), Tuple(arguments), None)
  }

  function Local(name: string, value: Expression): Statement
  {
    LocalAssign([TypedIdentifier(name, None)], [value])
  }

  function Loop(body: seq<Statement>): Statement
  {
    NumericFor("i", Number("1"), Number("10"), None, Block(body, None))
  }

  /** `function main() local x = 33 for i = 1, 10 do <body> end end` */
  function MainWithLoop(loopBody: seq<Statement>): Block
  {
    var mainBody := Block([Local("x", Number("33")), Loop(loopBody)], None);
    Block([FunctionStatement(FunctionName("main", [], None), [], mainBody)], None)
  }

  // ---- one lemma per statement shape the tests use ----

  lemma SingleStatementBlock(versionFile: VersionFile, state: ResolverState, statement: Statement)
    ensures WalkBlock(versionFile, state, Block([statement], None))
      == PopState(WalkStatement(versionFile, PushState(versionFile, state), statement))
  {
    var pushed := PushState(versionFile, state);
    assert WalkStatements(versionFile, pushed, [statement])
      == WalkStatements(versionFile, WalkStatement(versionFile, pushed, statement), []);
  }

  lemma TwoStatementBlock(versionFile: VersionFile, state: ResolverState, first: Statement, second: Statement)
    ensures WalkBlock(versionFile, state, Block([first, second], None))
      == PopState(WalkStatement(versionFile, WalkStatement(versionFile, PushState(versionFile, state), first), second))
  {
    var pushed := PushState(versionFile, state);
    var afterFirst := WalkStatement(versionFile, pushed, first);
    assert [first, second][1..] == [second];
    assert WalkStatements(versionFile, afterFirst, [second])
      == WalkStatements(versionFile, WalkStatement(versionFile, afterFirst, second), []);
  }

  lemma FunctionStatementWalk(versionFile: VersionFile, state: ResolverState, name: FunctionName, body: Block)
    ensures WalkStatement(versionFile, state, FunctionStatement(name, [], body))
      == PopState(WalkBlock(versionFile, PushState(versionFile, state), body))
  {
    var statement := FunctionStatement(name, [], body);
    var scoped := WalkScopedBody(versionFile, state, [], body);
    assert scoped == PopState(WalkBlock(versionFile, PushState(versionFile, state), body));
    assert WalkStatementChildren(versionFile, state, statement) == scoped;
    NotIfWalk(versionFile, state, statement);
  }

  /** A statement other than an `if` is walked through its children. */
  lemma NotIfWalk(versionFile: VersionFile, state: ResolverState, statement: Statement)
    requires !statement.If?
    ensures WalkStatement(versionFile, state, statement) == WalkStatementChildren(versionFile, state, statement)
  {
    OtherStatementsUntouched(versionFile, state, statement);
  }

  lemma NumericForChildren(versionFile: VersionFile, state: ResolverState, name: string, start: string, end: string, body: Block)
    ensures WalkStatementChildren(versionFile, state, NumericFor(name, Number(start), Number(end), None, body))
      == PopState(WalkBlock(versionFile, PushState(versionFile, state), body))
  {
    assert WalkExpression(versionFile, state, Number(start)) == state;
    assert WalkExpression(versionFile, state, Number(end)) == state;
    assert WalkOptionalExpression(versionFile, state, None) == state;
    assert WalkScopedBody(versionFile, state, [name], body) == PopState(WalkBlock(versionFile, PushState(versionFile, state), body));
  }

  lemma LoopWalk(versionFile: VersionFile, state: ResolverState, body: seq<Statement>)
    ensures WalkStatement(versionFile, state, Loop(body))
      == PopState(WalkBlock(versionFile, PushState(versionFile, state), Block(body, None)))
  {
    NotIfWalk(versionFile, state, Loop(body));
    NumericForChildren(versionFile, state, "i", "1", "10", Block(body, None));
  }

  lemma LocalNumberWalk(versionFile: VersionFile, state: ResolverState, name: string, number: string)
    ensures WalkStatement(versionFile, state, Local(name, Number(number)))
      == InsertLocalState(state, name, Some(Number(number)))
  {
    var statement := Local(name, Number(number));
    OtherStatementsUntouched(versionFile, state, statement);
    assert WalkStatement(versionFile, state, statement) == WalkStatementChildren(versionFile, state, statement);
    assert WalkExpressions(versionFile, state, [Number(number)])
      == WalkExpressions(versionFile, WalkExpression(versionFile, state, Number(number)), []);
    InsertOneLocal(state, name, Number(number));
  }

  lemma InsertOneLocal(state: ResolverState, name: string, value: Expression)
    ensures InsertLocals(state, [TypedIdentifier(name, None)], [value]) == InsertLocalState(state, name, Some(value))
  {
    var inserted := InsertLocalState(state, name, Some(value));
    assert [TypedIdentifier(name, None)][1..] == [];
    assert [value][1..] == [];
    assert InsertLocals(state, [TypedIdentifier(name, None)], [value]) == InsertLocals(inserted, [], []);
  }

  /** `name(arg)` where `arg` is a bare identifier or there is no argument. */
  lemma SimpleCallWalk(versionFile: VersionFile, state: ResolverState, call: FunctionCall)
    requires call.prefix.PrefixIdentifier? && call.arguments.Tuple?
    requires |call.arguments.values| <= 1
    requires forall i :: 0 <= i < |call.arguments.values| ==> call.arguments.values[i].Identifier?
    ensures WalkFunctionCall(versionFile, state, call) == ProcessFunctionCallState(versionFile, state, call)
  {
    var processed := ProcessFunctionCallState(versionFile, state, call);
    assert WalkPrefix(versionFile, processed, call.prefix) == processed;
    var values := call.arguments.values;
    if values != [] {
      assert values[1..] == [];
      assert WalkExpression(versionFile, processed, values[0]) == processed;
      assert WalkExpressions(versionFile, processed, values)
        == WalkExpressions(versionFile, WalkExpression(versionFile, processed, values[0]), values[1..]);
    }
    assert WalkArguments(versionFile, processed, call.arguments) == WalkExpressions(versionFile, processed, values);
  }

  lemma LocalCallWalk(versionFile: VersionFile, state: ResolverState, name: string, call: FunctionCall)
    requires call.prefix.PrefixIdentifier? && call.arguments.Tuple?
    requires |call.arguments.values| <= 1
    requires forall i :: 0 <= i < |call.arguments.values| ==> call.arguments.values[i].Identifier?
    ensures WalkStatement(versionFile, state, Local(name, Call(call)))
      == InsertLocalState(ProcessFunctionCallState(versionFile, state, call), name, Some(Call(call)))
  {
    var statement := Local(name, Call(call));
    OtherStatementsUntouched(versionFile, state, statement);
    assert WalkStatement(versionFile, state, statement) == WalkStatementChildren(versionFile, state, statement);
    SimpleCallWalk(versionFile, state, call);
    assert WalkExpressions(versionFile, state, [Call(call)])
      == WalkExpressions(versionFile, WalkExpression(versionFile, state, Call(call)), []);
    InsertOneLocal(ProcessFunctionCallState(versionFile, state, call), name, Call(call));
  }

  lemma CallStatementWalk(versionFile: VersionFile, state: ResolverState, call: FunctionCall)
    requires call.prefix.PrefixIdentifier? && call.arguments == Tuple([]) && call.prefix.name != "pcall"
    ensures WalkStatement(versionFile, state, CallStatement(call)) == ProcessFunctionCallState(versionFile, state, call)
  {
    OtherStatementsUntouched(versionFile, state, CallStatement(call));
    SimpleCallWalk(versionFile, state, call);
  }

  /** A block of a single call, run on a fresh resolver, reports the call's interval narrowed by the default. */
  lemma ResolveSingleCall(versionFile: VersionFile, name: string)
    requires name != "pcall" && name in versionFile.functionMappings
    ensures ResolveBlock(versionFile, Block([CallStatement(CallOf(name, []))], None))
      == Intersection(New(DefaultVersion(versionFile)), MappingVersion(versionFile.functionMappings[name]))
  {
    var s0 := NewState(versionFile);
    var s1 := PushState(versionFile, s0);
    SingleStatementBlock(versionFile, s0, CallStatement(CallOf(name, [])));
    CallStatementWalk(versionFile, s1, CallOf(name, []));
    MappedCallNarrows(versionFile, s1, CallOf(name, []), name);
  }

  /** The state in which the loop block of `MainWithLoop` is entered: four scopes deep, `x` bound. */
  function LoopState(versionFile: VersionFile): ResolverState
  {
    var inMain := PushState(versionFile, PushState(versionFile, PushState(versionFile, NewState(versionFile))));
    PushState(versionFile, InsertLocalState(inMain, "x", Some(Number("33"))))
  }

  /** The state in which the loop body's first statement is walked: five scopes deep. */
  function LoopBodyState(versionFile: VersionFile): ResolverState
  {
    PushState(versionFile, LoopState(versionFile))
  }

  function PopFive(state: ResolverState): ResolverState
  {
    PopState(PopState(PopState(PopState(PopState(state)))))
  }

  /** `MainWithLoop(body)` is the walk of its loop block, four scopes deep. */
  lemma MainWithLoopWalk(versionFile: VersionFile, body: seq<Statement>)
    ensures WalkBlock(versionFile, NewState(versionFile), MainWithLoop(body))
      == PopState(PopState(PopState(PopState(WalkBlock(versionFile, LoopState(versionFile), Block(body, None))))))
  {
    var mainBody := Block([Local("x", Number("33")), Loop(body)], None);
    var s0 := NewState(versionFile);
    var s1 := PushState(versionFile, s0);
    var s2 := PushState(versionFile, s1);
    var s3 := PushState(versionFile, s2);
    var s4 := InsertLocalState(s3, "x", Some(Number("33")));
    SingleStatementBlock(versionFile, s0, FunctionStatement(FunctionName("main", [], None), [], mainBody));
    FunctionStatementWalk(versionFile, s1, FunctionName("main", [], None), mainBody);
    TwoStatementBlock(versionFile, s2, Local("x", Number("33")), Loop(body));
    LocalNumberWalk(versionFile, s3, "x", "33");
    LoopWalk(versionFile, s4, body);
  }

  /** Five nested default scopes around an innermost interval at or above the default report that interval. */
  lemma PopFiveReportsInnermost(versionFile: VersionFile, state: ResolverState, innermost: SdkVersionOut)
    requires var d := New(DefaultVersion(versionFile)); state.scopeStack == [d, d, d, d, innermost]
    requires innermost.minSdkVersion >= DefaultVersion(versionFile)
    ensures PopFive(state).scopeData == innermost
  {
    var d := New(DefaultVersion(versionFile));
    assert Intersection(d, innermost) == innermost;
    PopIntersectsIntoParent(state);
    var s1 := PopState(state);
    assert s1.scopeStack == [d, d, d, innermost];
    PopIntersectsIntoParent(s1);
    var s2 := PopState(s1);
    assert s2.scopeStack == [d, d, innermost];
    PopIntersectsIntoParent(s2);
    var s3 := PopState(s2);
    assert s3.scopeStack == [d, innermost];
    PopIntersectsIntoParent(s3);
    PopOutermostOverwrites(PopState(s3));
  }

  lemma LoopBodyStateStack(versionFile: VersionFile)
    ensures var d := New(DefaultVersion(versionFile));
      LoopBodyState(versionFile).scopeStack == [d, d, d, d, d]
  {
  }

  lemma UpdateInnermost(state: ResolverState, d: SdkVersionOut, version: SdkVersionOut)
    requires state.scopeStack == [d, d, d, d, d]
    ensures UpdateLastScopeData(state, version).scopeStack == [d, d, d, d, Intersection(d, version)]
  {
    var r := UpdateLastScopeData(state, version);
    assert r.scopeStack[..4] == [d, d, d, d];
    assert r.scopeStack == r.scopeStack[..4] + [r.scopeStack[4]];
  }

  lemma TestDefault()
    ensures DefaultVersion(TestVersionFile()) == 10
  {
  }

  /** Five scopes, the outer four at the default, the innermost above it. */
  lemma LoopBodyWalking(versionFile: VersionFile, state: ResolverState, innermost: SdkVersionOut)
    requires var d := New(DefaultVersion(versionFile));
      state.scopeStack == [d, d, d, d, innermost] && state.scopeData == d
    requires innermost.minSdkVersion >= DefaultVersion(versionFile)
    ensures Walking(versionFile, state)
  {
  }

  lemma TestMappings()
    ensures var mappings := TestVersionFile().functionMappings;
      && mappings["get_sdk_version"] == FunctionMapping(13, None)
      && mappings["at_least_20"] == FunctionMapping(20, None)
      && mappings["less_than_20"] == FunctionMapping(16, Some(19))
      && mappings["global_function_15"] == FunctionMapping(15, None)
  {
  }

  /** The loop body of the `pcall` test narrows the innermost scope to 15. */
  lemma PcallLoopBody()
    ensures var call := CallOf("pcall", [Identifier("global_function_15")]);
      WalkStatement(TestVersionFile(), LoopBodyState(TestVersionFile()), Local("my_test_call", Call(call))).scopeStack
        == [New(10), New(10), New(10), New(10), SdkVersionOut(15, None)]
  {
    var vf := TestVersionFile();
    TestDefault();
    LoopBodyStateStack(vf);
    PcallNarrows(LoopBodyState(vf));
  }

  /** The `pcall` local in any state five default scopes deep. */
  lemma PcallNarrows(s5: ResolverState)
    requires s5.scopeStack == [New(10), New(10), New(10), New(10), New(10)]
    ensures var call := CallOf("pcall", [Identifier("global_function_15")]);
      WalkStatement(TestVersionFile(), s5, Local("my_test_call", Call(call))).scopeStack
        == [New(10), New(10), New(10), New(10), SdkVersionOut(15, None)]
  {
    var vf := TestVersionFile();
    var call := CallOf("pcall", [Identifier("global_function_15")]);
    LocalCallWalk(vf, s5, "my_test_call", call);
    var processed := ProcessFunctionCallState(vf, s5, call);
    PcallCountsAsCallOfArgument(vf, s5, "global_function_15", []);
    TestMappings();
    MappedCallNarrows(vf, s5, CallOf("global_function_15", []), "global_function_15");
    assert processed == UpdateLastScopeData(s5, SdkVersionOut(15, None));
    UpdateInnermost(s5, New(10), SdkVersionOut(15, None));
    assert Intersection(New(10), SdkVersionOut(15, None)) == SdkVersionOut(15, None);
    assert InsertLocalState(processed, "my_test_call", Some(Call(call))).scopeStack == processed.scopeStack;
  }

  /** `local my_test_call = pcall(global_function_15)` inside the loop: the result is 15. */
  lemma PcallTest()
    ensures ResolveBlock(TestVersionFile(), MainWithLoop([Local("my_test_call", Call(CallOf("pcall", [Identifier("global_function_15")])))]))
      == SdkVersionOut(15, None)
  {
    var vf := TestVersionFile();
    var body := Local("my_test_call", Call(CallOf("pcall", [Identifier("global_function_15")])));
    MainWithLoopWalk(vf, [body]);
    SingleStatementBlock(vf, LoopState(vf), body);
    PcallLoopBody();
    PopFiveReportsInnermost(vf, WalkStatement(vf, LoopBodyState(vf), body), SdkVersionOut(15, None));
  }

  // ---- the probe-guarded `if` tests ----

  function GetSdkVersionCall(): FunctionCall
  {
    CallOf("get_sdk_version", [])
  }

  /** `if sdk_version >= 20 then at_least_20() [else less_than_20()] end` */
  function GuardedIf(withElse: bool): IfStatement
  {
    IfStatement(
      IfBranch(Binary(">=", Identifier("sdk_version"), Number("20")), Block([CallStatement(CallOf("at_least_20", []))], None)),
      [],
      if withElse then Some(Block([CallStatement(CallOf("less_than_20", []))], None)) else None)
  }

  function GuardedLoopBody(withElse: bool): seq<Statement>
  {
    [Local("sdk_version", Call(GetSdkVersionCall())), If(GuardedIf(withElse))]
  }

  /** After `local sdk_version = get_sdk_version()`: the innermost scope is 13 and the name is bound to the probe call. */
  lemma ProbeLocal()
    ensures var state := WalkStatement(TestVersionFile(), LoopBodyState(TestVersionFile()), Local("sdk_version", Call(GetSdkVersionCall())));
      && state.scopeStack == [New(10), New(10), New(10), New(10), SdkVersionOut(13, None)]
      && state.scopeData == New(10)
      && ScopedMap.Get(state.variableScope, "sdk_version") == Some(Some(Call(GetSdkVersionCall())))
  {
    var vf := TestVersionFile();
    var s5 := LoopBodyState(vf);
    LocalCallWalk(vf, s5, "sdk_version", GetSdkVersionCall());
    TestMappings();
    MappedCallNarrows(vf, s5, GetSdkVersionCall(), "get_sdk_version");
    LoopBodyStateStack(vf);
    UpdateInnermost(s5, New(10), SdkVersionOut(13, None));
  }

  /** The condition `sdk_version >= 20` calls the probe through the binding of `sdk_version`. */
  lemma ConditionCallsProbe(state: ResolverState, withElse: bool)
    requires ScopedMap.Get(state.variableScope, "sdk_version") == Some(Some(Call(GetSdkVersionCall())))
    ensures ConditionHasProbe(TestVersionFile(), state, GuardedIf(withElse))
  {
    var condition := GuardedIf(withElse).firstBranch.condition;
    assert DefaultVisitor.ExpressionEvents(condition)[1] == DefaultVisitor.ExpressionEvent(Identifier("sdk_version"));
    assert Triggers("get_sdk_version", state.variableScope, DefaultVisitor.ExpressionEvents(condition)[1]);
  }

  /** The two branches alone: `at_least_20()` reports 20, `less_than_20()` reports 16 to 19. */
  lemma BranchVersions()
    ensures ResolveBlock(TestVersionFile(), GuardedIf(true).firstBranch.block) == SdkVersionOut(20, None)
    ensures ResolveBlock(TestVersionFile(), GuardedIf(true).elseBlock.value) == SdkVersionOut(16, Some(19))
  {
    TestMappings();
    ResolveSingleCall(TestVersionFile(), "at_least_20");
    ResolveSingleCall(TestVersionFile(), "less_than_20");
  }

  lemma GuardedLoopBlock(withElse: bool)
    ensures var vf := TestVersionFile();
      var afterLocal := WalkStatement(vf, LoopBodyState(vf), Local("sdk_version", Call(GetSdkVersionCall())));
      WalkBlock(vf, LoopState(vf), Block(GuardedLoopBody(withElse), None))
        == PopState(ProcessStatementSpec(vf, afterLocal, If(GuardedIf(withElse))).0)
  {
    var vf := TestVersionFile();
    var afterLocal := WalkStatement(vf, LoopBodyState(vf), Local("sdk_version", Call(GetSdkVersionCall())));
    TwoStatementBlock(vf, LoopState(vf), Local("sdk_version", Call(GetSdkVersionCall())), If(GuardedIf(withElse)));
    ProbeLocal();
    TestDefault();
    LoopBodyWalking(vf, afterLocal, SdkVersionOut(13, None));
    ConditionCallsProbe(afterLocal, withElse);
    ProbeGuardedIfWalk(vf, afterLocal, GuardedIf(withElse));
  }

  /** The probe-guarded `if`/`else` narrows the loop scope to the union 16, not to 20. */
  lemma GuardedIfElseStatement()
    ensures var vf := TestVersionFile();
      var afterLocal := WalkStatement(vf, LoopBodyState(vf), Local("sdk_version", Call(GetSdkVersionCall())));
      ProcessStatementSpec(vf, afterLocal, If(GuardedIf(true))).0.scopeStack
        == [New(10), New(10), New(10), New(10), SdkVersionOut(16, None)]
  {
    var vf := TestVersionFile();
    var afterLocal := WalkStatement(vf, LoopBodyState(vf), Local("sdk_version", Call(GetSdkVersionCall())));
    ProbeLocal();
    GuardedIfElseNarrows(afterLocal);
  }

  /** The guarded `if`/`else` in any state where the probe is bound and the loop scope is at 13. */
  lemma GuardedIfElseNarrows(state: ResolverState)
    requires state.scopeStack == [New(10), New(10), New(10), New(10), SdkVersionOut(13, None)]
    requires ScopedMap.Get(state.variableScope, "sdk_version") == Some(Some(Call(GetSdkVersionCall())))
    ensures ProcessStatementSpec(TestVersionFile(), state, If(GuardedIf(true))).0.scopeStack
      == [New(10), New(10), New(10), New(10), SdkVersionOut(16, None)]
  {
    var vf := TestVersionFile();
    ConditionCallsProbe(state, true);
    BranchVersions();
    ProbeGuardedIfElse(vf, state, GuardedIf(true));
    var both := Union(ResolveBlock(vf, GuardedIf(true).firstBranch.block), ResolveBlock(vf, GuardedIf(true).elseBlock.value));
    assert both == SdkVersionOut(16, None);
    assert Intersection(SdkVersionOut(13, None), both) == SdkVersionOut(16, None);
    assert state.scopeStack[..4] + [Intersection(state.scopeStack[4], both)]
      == [New(10), New(10), New(10), New(10), SdkVersionOut(16, None)];
  }

  /** The if/else test: the result is 16, the union of 20 and 16..19 narrowed by 13. */
  lemma IfElseTest()
    ensures ResolveBlock(TestVersionFile(), MainWithLoop(GuardedLoopBody(true))).minSdkVersion == 16
  {
    var vf := TestVersionFile();
    MainWithLoopWalk(vf, GuardedLoopBody(true));
    GuardedLoopBlock(true);
    GuardedIfElseStatement();
    var afterLocal := WalkStatement(vf, LoopBodyState(vf), Local("sdk_version", Call(GetSdkVersionCall())));
    PopFiveReportsInnermost(vf, ProcessStatementSpec(vf, afterLocal, If(GuardedIf(true))).0, SdkVersionOut(16, None));
  }

  /** The if-only test: the guarded `if` is cleared without narrowing, so the result is the probe's own 13. */
  lemma IfOnlyTest()
    ensures ResolveBlock(TestVersionFile(), MainWithLoop(GuardedLoopBody(false))).minSdkVersion == 13
  {
    var vf := TestVersionFile();
    MainWithLoopWalk(vf, GuardedLoopBody(false));
    GuardedLoopBlock(false);
    ProbeLocal();
    var afterLocal := WalkStatement(vf, LoopBodyState(vf), Local("sdk_version", Call(GetSdkVersionCall())));
    ConditionCallsProbe(afterLocal, false);
    ProbeGuardedIfOnlyClears(vf, afterLocal, GuardedIf(false));
    PopFiveReportsInnermost(vf, afterLocal, SdkVersionOut(13, None));
  }
}
