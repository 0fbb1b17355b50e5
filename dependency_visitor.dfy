// `RequireDependencyProcessor` (src/commands/version/dependency_visitor.rs): collects the
// modules a Luau file requires by a literal path, resolving each through a path locator.
module RequireDependencies {
  import opened Wrappers
  import opened LuaAst
  import opened Strings
  import opened DefaultVisitor
  import opened VersionUtils

  // ---- string literals as paths ----

  /** One `/`-separated segment after the first: empty and `.` segments yield nothing. */
  function SegmentComponents(segments: seq<string>): (r: Path)
    ensures forall k :: 0 <= k < |r| ==> r[k].ParentDir? || (r[k].Normal? && r[k].name != "" && r[k].name != ".")
    ensures |r| <= |segments|
  {
    if segments == [] then []
    else
      var segment := segments[0];
      var first := if segment == "" || segment == "." then [] else if segment == ".." then [ParentDir] else [Normal(segment)];
      first + SegmentComponents(segments[1..])
  }

  /**
    * `Path::new(s).components()` on Unix: a leading `/` is the root, a leading `.` segment
    * is kept as `.`, `..` is the parent, empty and other `.` segments are dropped, and
    * every other segment is a name without `/`.
    */
  function PathComponents(s: string): (r: Path)
    ensures NoPrefix(r) && WellFormedPath(r)
    ensures forall k :: 0 < k < |r| ==> r[k].ParentDir? || r[k].Normal?
    ensures forall k :: 0 <= k < |r| && r[k].Normal? ==> r[k].name != "" && r[k].name != "." && '/' !in r[k].name
    ensures r != [] && r[0] == RootDir <==> s != [] && s[0] == '/'
  {
    var segments := Split(s, '/');
    var r :=
      if s != [] && s[0] == '/' then [RootDir] + SegmentComponents(segments[1..])
      else if segments[0] == "." then [CurDir] + SegmentComponents(segments[1..])
      else SegmentComponents(segments);
    assert forall k :: 0 <= k < |r| && r[k].Normal? ==> r[k].name in segments by {
      SegmentNames(segments);
      SegmentNames(segments[1..]);
    }
    SplitLeadingSeparator(s);
    r
  }

  lemma {:induction false} SegmentNames(segments: seq<string>)
    ensures forall k :: 0 <= k < |SegmentComponents(segments)| && SegmentComponents(segments)[k].Normal? ==>
      SegmentComponents(segments)[k].name in segments
  {
    if segments != [] {
      SegmentNames(segments[1..]);
    }
  }

  /** A leading separator opens with an empty segment. */
  lemma SplitLeadingSeparator(s: string)
    ensures s != [] && s[0] == '/' ==> Split(s, '/')[0] == []
  {
    if s != [] && s[0] == '/' {
      SplitAtSeparator([], s[1..], '/');
      assert s == [] + ['/'] + s[1..];
    }
  }

  /** A relative path of plain names is one `Normal` component per name. */
  lemma {:induction false} PlainRelativePath(names: seq<string>)
    requires names != []
    requires forall k :: 0 <= k < |names| ==> names[k] != "" && names[k] != "." && names[k] != ".." && '/' !in names[k]
    ensures PathComponents(Join(names, "/")) == seq(|names|, k requires 0 <= k < |names| => Normal(names[k]))
  {
    var s := Join(names, "/");
    SplitJoin(names, '/');
    assert Split(s, '/') == names;
    PlainSegments(names);
    SplitLeadingSeparator(s);
  }

  lemma {:induction false} PlainSegments(names: seq<string>)
    requires forall k :: 0 <= k < |names| ==> names[k] != "" && names[k] != "." && names[k] != ".."
    ensures SegmentComponents(names) == seq(|names|, k requires 0 <= k < |names| => Normal(names[k]))
  {
    if names != [] {
      PlainSegments(names[1..]);
    }
  }

  // ---- recognising `require` ----

  /** `is_require_call`: not a method call, and made through the bare identifier `require`. */
  predicate IsRequireCall(call: FunctionCall)
  {
    call.methodName.None? && call.prefix == PrefixIdentifier("require")
  }

  /** The string literal a call is given as its only argument, or by the string-call sugar. */
  function RequireLiteral(arguments: Arguments): Option<string>
  {
    match arguments
    case ArgumentString(value) => Some(value)
    case Tuple(values) =>
      if |values| == 1 && values[0].Str? then Some(values[0].value) else None
    case ArgumentTable(_) => None
  }

  /**
    * `match_path_require_call`: a recognised literal as a path, normalised keeping a
    * leading `.`; None for any other arguments.
    */
  function MatchPathRequireCall(call: FunctionCall): (r: Option<Path>)
    ensures r.Some? <==> (call.arguments.ArgumentString?
      || (call.arguments.Tuple? && |call.arguments.values| == 1 && call.arguments.values[0].Str?))
    ensures r.Some? ==> WellFormedPath(r.value) && NoPrefix(r.value)
    ensures r.Some? && r.value != [] ==> IsNormal(r.value, true)
  {
    match RequireLiteral(call.arguments)
    case None => None
    case Some(literal) =>
      var path := PathComponents(literal);
      NormalizedHasNoPrefix(path);
      if path == [] then Some([])
      else
        NormalizeIsNormal(path, true);
        Some(NormalizeSpec(path, true))
  }

  lemma NormalizedHasNoPrefix(path: Path)
    requires NoPrefix(path) && WellFormedPath(path)
    ensures NoPrefix(NormalizeSpec(path, true))
  {
    if path != [] {
      NoPrefixRun(Start(path), Rest(path), true);
    }
  }

  lemma {:induction false} NoPrefixRun(ret: Path, cs: Path, keepCurrentDir: bool)
    requires NoPrefix(ret) && NoPrefix(cs)
    ensures NoPrefix(Run(ret, cs, keepCurrentDir))
    decreases |cs|
  {
    if cs != [] {
      var next := Step(ret, cs[0], keepCurrentDir);
      assert NoPrefix(next);
      NoPrefixRun(next, cs[1..], keepCurrentDir);
    }
  }

  /** `require_call`: the literal path of a `require` call, if it has one. */
  function RequireCall(call: FunctionCall): (r: Option<Path>)
    ensures r.Some? ==> IsRequireCall(call) && MatchPathRequireCall(call) == r
    ensures IsRequireCall(call) ==> r == MatchPathRequireCall(call)
  {
    if IsRequireCall(call) then MatchPathRequireCall(call) else None
  }

  // ---- what a walk collects ----

  /** Why a required path could not be resolved. */
  datatype RequireError = FailedToFindRequirePath(literalPath: Path)

  /** `RequirePathLocator::find_require_path`: a literal and the requiring file to a module path. */
  type Locator = (Path, Path) -> Option<Path>

  /** The call a processor hook looks at: a call statement, a call expression or a call prefix. */
  function HookedCall(event: Event): Option<FunctionCall>
  {
    match event
    case StatementEvent(CallStatement(call)) => Some(call)
    case ExpressionEvent(Call(call)) => Some(call)
    case PrefixEvent(PrefixCall(call)) => Some(call)
    case _ => None
  }

  /** The literal path a single callback collects, if any. */
  function EventLiteral(event: Event): (r: seq<Path>)
    ensures |r| <= 1
  {
    match HookedCall(event)
    case Some(call) => if RequireCall(call).Some? then [RequireCall(call).value] else []
    case None => []
  }

  /** The literal paths of the `require` calls of a walk, in visit order. */
  function RequiredLiterals(events: seq<Event>): seq<Path>
  {
    if events == [] then [] else EventLiteral(events[0]) + RequiredLiterals(events[1..])
  }

  /** The resolution of one literal, if it resolves. */
  function ResolvedOne(locate: Locator, currentFilePath: Path, literal: Path): seq<Path>
  {
    match locate(literal, currentFilePath)
    case Some(path) => [path]
    case None => []
  }

  /** The resolved paths of the literals that resolve, in order, duplicates kept. */
  function Resolved(locate: Locator, currentFilePath: Path, literals: seq<Path>): seq<Path>
  {
    if literals == [] then []
    else ResolvedOne(locate, currentFilePath, literals[0]) + Resolved(locate, currentFilePath, literals[1..])
  }

  /** The error for one literal, if it does not resolve. */
  function FailureOne(locate: Locator, currentFilePath: Path, literal: Path): seq<RequireError>
  {
    if locate(literal, currentFilePath).None? then [FailedToFindRequirePath(literal)] else []
  }

  /** One error per literal that does not resolve, in order. */
  function Failures(locate: Locator, currentFilePath: Path, literals: seq<Path>): seq<RequireError>
  {
    if literals == [] then []
    else FailureOne(locate, currentFilePath, literals[0]) + Failures(locate, currentFilePath, literals[1..])
  }

  /** What one hooked call adds: its resolution, or one error when it does not resolve. */
  lemma OneCallCollected(locate: Locator, currentFilePath: Path, call: FunctionCall)
    ensures var literals := if RequireCall(call).Some? then [RequireCall(call).value] else [];
      RequireCall(call).None? ==> Resolved(locate, currentFilePath, literals) == [] && Failures(locate, currentFilePath, literals) == []
    ensures var literals := if RequireCall(call).Some? then [RequireCall(call).value] else [];
      RequireCall(call).Some? ==>
        Resolved(locate, currentFilePath, literals) == ResolvedOne(locate, currentFilePath, RequireCall(call).value)
        && Failures(locate, currentFilePath, literals) == FailureOne(locate, currentFilePath, RequireCall(call).value)
  {
    if RequireCall(call).Some? {
      var literals := [RequireCall(call).value];
      assert literals[1..] == [];
      assert ResolvedOne(locate, currentFilePath, literals[0]) + [] == ResolvedOne(locate, currentFilePath, literals[0]);
      assert FailureOne(locate, currentFilePath, literals[0]) + [] == FailureOne(locate, currentFilePath, literals[0]);
    }
  }

  /** Every literal resolves. */
  predicate AllResolve(locate: Locator, currentFilePath: Path, literals: seq<Path>)
  {
    forall k :: 0 <= k < |literals| ==> locate(literals[k], currentFilePath).Some?
  }

  /** Every literal is either resolved or reported, never both, never neither. */
  lemma {:induction false} ResolvedOrFailed(locate: Locator, currentFilePath: Path, literals: seq<Path>)
    ensures |Resolved(locate, currentFilePath, literals)| + |Failures(locate, currentFilePath, literals)| == |literals|
    ensures Failures(locate, currentFilePath, literals) == [] <==> AllResolve(locate, currentFilePath, literals)
  {
    if literals != [] {
      ResolvedOrFailed(locate, currentFilePath, literals[1..]);
      if Failures(locate, currentFilePath, literals) == [] {
        forall k | 0 <= k < |literals|
          ensures locate(literals[k], currentFilePath).Some?
        {
          if k > 0 {
            assert literals[k] == literals[1..][k - 1];
          }
        }
      }
    }
  }

  /** With no failures, the resolved paths are the literals' resolutions, one to one. */
  lemma {:induction false} ResolvedWhenNoFailures(locate: Locator, currentFilePath: Path, literals: seq<Path>)
    requires Failures(locate, currentFilePath, literals) == []
    ensures |Resolved(locate, currentFilePath, literals)| == |literals|
    ensures forall k :: 0 <= k < |literals| ==>
      Some(Resolved(locate, currentFilePath, literals)[k]) == locate(literals[k], currentFilePath)
  {
    ResolvedOrFailed(locate, currentFilePath, literals);
    if literals != [] {
      ResolvedWhenNoFailures(locate, currentFilePath, literals[1..]);
      var rest := Resolved(locate, currentFilePath, literals[1..]);
      forall k | 0 < k < |literals|
        ensures Some(Resolved(locate, currentFilePath, literals)[k]) == locate(literals[k], currentFilePath)
      {
        assert literals[k] == literals[1..][k - 1];
        assert Resolved(locate, currentFilePath, literals)[k] == rest[k - 1];
      }
    }
  }

  lemma {:induction false} RequiredLiteralsAppend(a: seq<Event>, b: seq<Event>)
    ensures RequiredLiterals(a + b) == RequiredLiterals(a) + RequiredLiterals(b)
  {
    if a != [] {
      assert (a + b)[0] == a[0];
      assert (a + b)[1..] == a[1..] + b;
      RequiredLiteralsAppend(a[1..], b);
      assert RequiredLiterals(a + b) == EventLiteral(a[0]) + (RequiredLiterals(a[1..]) + RequiredLiterals(b));
    } else {
      assert a + b == b;
    }
  }

  lemma {:induction false} ResolvedAppend(locate: Locator, currentFilePath: Path, a: seq<Path>, b: seq<Path>)
    ensures Resolved(locate, currentFilePath, a + b) == Resolved(locate, currentFilePath, a) + Resolved(locate, currentFilePath, b)
    ensures Failures(locate, currentFilePath, a + b) == Failures(locate, currentFilePath, a) + Failures(locate, currentFilePath, b)
  {
    if a != [] {
      assert (a + b)[0] == a[0];
      assert (a + b)[1..] == a[1..] + b;
      ResolvedAppend(locate, currentFilePath, a[1..], b);
      assert Resolved(locate, currentFilePath, a + b)
        == ResolvedOne(locate, currentFilePath, a[0]) + (Resolved(locate, currentFilePath, a[1..]) + Resolved(locate, currentFilePath, b));
      assert Failures(locate, currentFilePath, a + b)
        == FailureOne(locate, currentFilePath, a[0]) + (Failures(locate, currentFilePath, a[1..]) + Failures(locate, currentFilePath, b));
    } else {
      assert a + b == b;
    }
  }

  /** Visiting one more callback extends what is collected by what that callback collects. */
  lemma CollectStep(locate: Locator, currentFilePath: Path, events: seq<Event>, i: nat)
    requires i < |events|
    ensures Resolved(locate, currentFilePath, RequiredLiterals(events[..i + 1]))
      == Resolved(locate, currentFilePath, RequiredLiterals(events[..i])) + Resolved(locate, currentFilePath, EventLiteral(events[i]))
    ensures Failures(locate, currentFilePath, RequiredLiterals(events[..i + 1]))
      == Failures(locate, currentFilePath, RequiredLiterals(events[..i])) + Failures(locate, currentFilePath, EventLiteral(events[i]))
  {
    assert events[..i + 1] == events[..i] + [events[i]];
    RequiredLiteralsAppend(events[..i], [events[i]]);
    assert RequiredLiterals([events[i]]) == EventLiteral(events[i]) + RequiredLiterals([]);
    assert EventLiteral(events[i]) + [] == EventLiteral(events[i]);
    ResolvedAppend(locate, currentFilePath, RequiredLiterals(events[..i]), EventLiteral(events[i]));
  }

  /** The loop step of a visit: what the next callback collects extends what is collected. */
  lemma CollectedStep(locate: Locator, currentFilePath: Path, events: seq<Event>, i: nat,
    deps0: seq<Path>, errors0: seq<RequireError>, deps1: seq<Path>, errors1: seq<RequireError>, deps2: seq<Path>, errors2: seq<RequireError>)
    requires i < |events|
    requires deps1 == deps0 + Resolved(locate, currentFilePath, RequiredLiterals(events[..i]))
    requires errors1 == errors0 + Failures(locate, currentFilePath, RequiredLiterals(events[..i]))
    requires deps2 == deps1 + Resolved(locate, currentFilePath, EventLiteral(events[i]))
    requires errors2 == errors1 + Failures(locate, currentFilePath, EventLiteral(events[i]))
    ensures deps2 == deps0 + Resolved(locate, currentFilePath, RequiredLiterals(events[..i + 1]))
    ensures errors2 == errors0 + Failures(locate, currentFilePath, RequiredLiterals(events[..i + 1]))
  {
    CollectStep(locate, currentFilePath, events, i);
    AppendAssoc(deps0, Resolved(locate, currentFilePath, RequiredLiterals(events[..i])), Resolved(locate, currentFilePath, EventLiteral(events[i])));
    AppendAssoc(errors0, Failures(locate, currentFilePath, RequiredLiterals(events[..i])), Failures(locate, currentFilePath, EventLiteral(events[i])));
  }

  lemma AppendAssoc<T>(a: seq<T>, b: seq<T>, c: seq<T>)
    ensures a + b + c == a + (b + c)
  {
  }

  /** `collect_dependencies` for one file: the resolved paths, or every resolution error. */
  function FileDependencies(locate: Locator, currentFilePath: Path, block: Block): (r: Result<seq<Path>, seq<RequireError>>)
    ensures r.Ok? <==> AllResolve(locate, currentFilePath, RequiredLiterals(BlockEvents(block)))
    ensures r.Err? ==> r.error != []
    ensures r.Ok? ==> |r.value| == |RequiredLiterals(BlockEvents(block))|
  {
    var literals := RequiredLiterals(BlockEvents(block));
    var errors := Failures(locate, currentFilePath, literals);
    ResolvedOrFailed(locate, currentFilePath, literals);
    if errors != [] then Err(errors) else Ok(Resolved(locate, currentFilePath, literals))
  }

  // ---- the processor ----

  class RequireDependencyProcessor {
    var dependsOn: seq<Path>
    const currentFilePath: Path
    const locate: Locator
    var errors: seq<RequireError>

    /** `new`: nothing collected yet. */
    constructor (currentFilePath: Path, locate: Locator)
      ensures this.currentFilePath == currentFilePath && this.locate == locate
      ensures dependsOn == [] && errors == []
    {
      this.currentFilePath := currentFilePath;
      this.locate := locate;
      dependsOn := [];
      errors := [];
    }

    /** The dependencies and errors are those before, extended by what `literals` yield. */
    predicate Collected(depsBefore: seq<Path>, errorsBefore: seq<RequireError>, literals: seq<Path>)
      reads this
    {
      dependsOn == depsBefore + Resolved(locate, currentFilePath, literals)
      && errors == errorsBefore + Failures(locate, currentFilePath, literals)
    }

    function Deps(): seq<Path>
      reads this
    {
      dependsOn
    }

    function Errors(): seq<RequireError>
      reads this
    {
      errors
    }

    /**
      * `process`: a `require` of a literal path appends its resolution to the dependencies,
      * or one error when it does not resolve; any other call changes nothing. The result
      * is present exactly when a dependency was appended.
      */
    method Process(call: FunctionCall) returns (r: Option<()>)
      modifies this
      ensures RequireCall(call).None? ==> r.None? && dependsOn == old(dependsOn) && errors == old(errors)
      ensures RequireCall(call).Some? ==>
        var literal := RequireCall(call).value;
        match locate(literal, currentFilePath)
        case Some(path) => r.Some? && dependsOn == old(dependsOn) + [path] && errors == old(errors)
        case None => r.None? && dependsOn == old(dependsOn) && errors == old(errors) + [FailedToFindRequirePath(literal)]
    {
      var literal := RequireCall(call);
      if literal.None? {
        return None;
      }
      var requirePath := locate(literal.value, currentFilePath);
      if requirePath.None? {
        errors := errors + [FailedToFindRequirePath(literal.value)];
        return None;
      }
      dependsOn := dependsOn + [requirePath.value];
      return Some(());
    }

    /** The three hooks, dispatched by the kind of node visited. */
    method Handle(event: Event)
      modifies this
      ensures dependsOn == old(dependsOn) + Resolved(locate, currentFilePath, EventLiteral(event))
      ensures errors == old(errors) + Failures(locate, currentFilePath, EventLiteral(event))
    {
      match event {
        case StatementEvent(statement) => ProcessStatement(statement);
        case ExpressionEvent(expression) => ProcessExpression(expression);
        case PrefixEvent(prefix) => ProcessPrefixExpression(prefix);
        case FunctionCallEvent(_) =>
      }
    }

    /** `process_expression`: a call expression is processed. */
    method ProcessExpression(expression: Expression)
      modifies this
      ensures dependsOn == old(dependsOn) + Resolved(locate, currentFilePath, EventLiteral(ExpressionEvent(expression)))
      ensures errors == old(errors) + Failures(locate, currentFilePath, EventLiteral(ExpressionEvent(expression)))
    {
      if expression.Call? {
        assert HookedCall(ExpressionEvent(expression)) == Some(expression.call);
        OneCallCollected(locate, currentFilePath, expression.call);
        var _ := Process(expression.call);
      } else {
        assert HookedCall(ExpressionEvent(expression)).None?;
      }
    }

    /** `process_prefix_expression`: a call prefix is processed. */
    method ProcessPrefixExpression(prefix: Prefix)
      modifies this
      ensures dependsOn == old(dependsOn) + Resolved(locate, currentFilePath, EventLiteral(PrefixEvent(prefix)))
      ensures errors == old(errors) + Failures(locate, currentFilePath, EventLiteral(PrefixEvent(prefix)))
    {
      if prefix.PrefixCall? {
        assert HookedCall(PrefixEvent(prefix)) == Some(prefix.call);
        OneCallCollected(locate, currentFilePath, prefix.call);
        var _ := Process(prefix.call);
      } else {
        assert HookedCall(PrefixEvent(prefix)).None?;
      }
    }

    /** `process_statement`: a call statement is processed. */
    method ProcessStatement(statement: Statement)
      modifies this
      ensures dependsOn == old(dependsOn) + Resolved(locate, currentFilePath, EventLiteral(StatementEvent(statement)))
      ensures errors == old(errors) + Failures(locate, currentFilePath, EventLiteral(StatementEvent(statement)))
    {
      if statement.CallStatement? {
        assert HookedCall(StatementEvent(statement)) == Some(statement.call);
        OneCallCollected(locate, currentFilePath, statement.call);
        var _ := Process(statement.call);
      } else {
        assert HookedCall(StatementEvent(statement)).None?;
      }
    }

    /** `DefaultVisitor::visit_block` with this processor: every hook in visit order. */
    method VisitBlock(block: Block)
      modifies this
      ensures dependsOn == old(dependsOn) + Resolved(locate, currentFilePath, RequiredLiterals(BlockEvents(block)))
      ensures errors == old(errors) + Failures(locate, currentFilePath, RequiredLiterals(BlockEvents(block)))
    {
      VisitEvents(BlockEvents(block));
    }

    /** The callbacks of a walk, handed to the hooks one at a time. */
    method VisitEvents(events: seq<Event>)
      modifies this
      ensures dependsOn == old(dependsOn) + Resolved(locate, currentFilePath, RequiredLiterals(events))
      ensures errors == old(errors) + Failures(locate, currentFilePath, RequiredLiterals(events))
    {
      var i := 0;
      while i < |events|
        invariant 0 <= i <= |events|
        invariant Collected(old(dependsOn), old(errors), RequiredLiterals(events[..i]))
      {
        ghost var depsMiddle, errorsMiddle := dependsOn, errors;
        Handle(events[i]);
        CollectedStep(locate, currentFilePath, events, i, old(dependsOn), old(errors), depsMiddle, errorsMiddle, dependsOn, errors);
        i := i + 1;
      }
      assert events[..i] == events;
    }
  }

  // ---- where calls are inspected ----

  /** A one-statement block is visited as that statement. */
  lemma SingleStatementEvents(statement: Statement)
    ensures BlockEvents(Block([statement], None)) == StatementEvents(statement)
  {
    assert StatementsEvents([statement]) == StatementEvents(statement) + StatementsEvents([]);
  }

  /** What a single callback collects. */
  lemma OneLiteral(e: Event)
    ensures RequiredLiterals([e]) == EventLiteral(e)
  {
    assert RequiredLiterals([e]) == EventLiteral(e) + RequiredLiterals([]);
  }

  /** The callback on a node, followed by the walk of its children. */
  lemma LiteralsOfNode(e: Event, children: seq<Event>)
    ensures RequiredLiterals([e] + children) == EventLiteral(e) + RequiredLiterals(children)
  {
    RequiredLiteralsAppend([e], children);
    OneLiteral(e);
  }

  /** The literal a call contributes when its wrapper is visited. */
  function CallLiteral(call: FunctionCall): (r: seq<Path>)
    ensures r != [] <==> RequireCall(call).Some?
  {
    if RequireCall(call).Some? then [RequireCall(call).value] else []
  }

  /**
    * A call node itself collects nothing (`process_function_call` is not a hook): what is
    * under it is what its callee and its arguments collect.
    */
  lemma CallCollectsChildren(call: FunctionCall)
    ensures RequiredLiterals(FunctionCallEvents(call))
      == RequiredLiterals(PrefixEvents(call.prefix)) + RequiredLiterals(ArgumentsEvents(call.arguments))
  {
    var prefixEvents, argumentEvents := PrefixEvents(call.prefix), ArgumentsEvents(call.arguments);
    AppendAssoc([FunctionCallEvent(call)], prefixEvents, argumentEvents);
    assert FunctionCallEvents(call) == [FunctionCallEvent(call)] + (prefixEvents + argumentEvents);
    LiteralsOfNode(FunctionCallEvent(call), prefixEvents + argumentEvents);
    assert EventLiteral(FunctionCallEvent(call)) == [];
    RequiredLiteralsAppend(prefixEvents, argumentEvents);
  }

  /** A call statement collects its own call once, then what is under the call. */
  lemma CallStatementCollects(call: FunctionCall)
    ensures RequiredLiterals(StatementEvents(CallStatement(call))) == CallLiteral(call) + RequiredLiterals(FunctionCallEvents(call))
  {
    LiteralsOfNode(StatementEvent(CallStatement(call)), FunctionCallEvents(call));
  }

  /** A call expression collects its own call once, then what is under the call. */
  lemma CallExpressionCollects(call: FunctionCall)
    ensures RequiredLiterals(ExpressionEvents(Call(call))) == CallLiteral(call) + RequiredLiterals(FunctionCallEvents(call))
  {
    assert ExpressionEvents(Call(call)) == [ExpressionEvent(Call(call))] + FunctionCallEvents(call);
    LiteralsOfNode(ExpressionEvent(Call(call)), FunctionCallEvents(call));
  }

  /** A call prefix collects its own call once, then what is under the call. */
  lemma CallPrefixCollects(call: FunctionCall)
    ensures RequiredLiterals(PrefixEvents(PrefixCall(call))) == CallLiteral(call) + RequiredLiterals(FunctionCallEvents(call))
  {
    CallPrefixEvents(call);
    LiteralsOfNode(PrefixEvent(PrefixCall(call)), FunctionCallEvents(call));
  }

  lemma CallPrefixEvents(call: FunctionCall)
    ensures PrefixEvents(PrefixCall(call)) == [PrefixEvent(PrefixCall(call))] + FunctionCallEvents(call)
  {
  }

  /** A bare name and a string literal collect nothing. */
  lemma LeavesCollectNothing(name: string, literal: string)
    ensures RequiredLiterals(PrefixEvents(PrefixIdentifier(name))) == []
    ensures RequiredLiterals(ExpressionEvents(Str(literal))) == []
    ensures RequiredLiterals(ArgumentsEvents(Tuple([Str(literal)]))) == []
    ensures RequiredLiterals(ArgumentsEvents(ArgumentString(literal))) == []
  {
    OneLiteral(PrefixEvent(PrefixIdentifier(name)));
    assert ExpressionEvents(Str(literal)) == [ExpressionEvent(Str(literal))];
    OneLiteral(ExpressionEvent(Str(literal)));
    assert ExpressionsEvents([Str(literal)]) == ExpressionEvents(Str(literal)) + ExpressionsEvents([]);
  }

  /** `require(s)` and `require "s"` collect their literal and nothing else. */
  lemma RequireCallCollects(literal: string, arguments: Arguments)
    requires arguments == Tuple([Str(literal)]) || arguments == ArgumentString(literal)
    ensures var call := FunctionCall(PrefixIdentifier("require"), arguments, None);
      CallLiteral(call) == [NormalizeSpec(PathComponents(literal), true)]
      && RequiredLiterals(FunctionCallEvents(call)) == []
  {
    var call := FunctionCall(PrefixIdentifier("require"), arguments, None);
    CallCollectsChildren(call);
    LeavesCollectNothing("require", literal);
  }

  /** `require("./a")` as a statement is collected from the call statement. */
  lemma RequireStatementCollected(literal: string)
    ensures var call := FunctionCall(PrefixIdentifier("require"), Tuple([Str(literal)]), None);
      RequiredLiterals(BlockEvents(Block([CallStatement(call)], None))) == [NormalizeSpec(PathComponents(literal), true)]
  {
    var call := FunctionCall(PrefixIdentifier("require"), Tuple([Str(literal)]), None);
    SingleStatementEvents(CallStatement(call));
    CallStatementCollects(call);
    RequireCallCollects(literal, call.arguments);
  }

  /** `local m = require "./a"` is collected from the call expression. */
  lemma RequireExpressionCollected(name: string, literal: string)
    ensures var call := FunctionCall(PrefixIdentifier("require"), ArgumentString(literal), None);
      RequiredLiterals(BlockEvents(Block([LocalAssign([TypedIdentifier(name, None)], [Call(call)])], None)))
        == [NormalizeSpec(PathComponents(literal), true)]
  {
    var call := FunctionCall(PrefixIdentifier("require"), ArgumentString(literal), None);
    var statement := LocalAssign([TypedIdentifier(name, None)], [Call(call)]);
    SingleStatementEvents(statement);
    assert ExpressionsEvents([Call(call)]) == ExpressionEvents(Call(call)) + ExpressionsEvents([]);
    assert ExpressionEvents(Call(call)) + [] == ExpressionEvents(Call(call));
    assert StatementEvents(statement) == [StatementEvent(statement)] + ExpressionEvents(Call(call));
    LiteralsOfNode(StatementEvent(statement), ExpressionEvents(Call(call)));
    CallExpressionCollects(call);
    RequireCallCollects(literal, call.arguments);
  }

  /**
    * `local m = require("./a") :: T` is collected too: the version command parses files
    * without removing types, and the walk goes into the cast's expression.
    */
  lemma RequireCastCollected(name: string, literal: string, ty: Type)
    ensures var call := FunctionCall(PrefixIdentifier("require"), Tuple([Str(literal)]), None);
      RequiredLiterals(BlockEvents(Block([LocalAssign([TypedIdentifier(name, None)], [TypeCast(Call(call), ty)])], None)))
        == [NormalizeSpec(PathComponents(literal), true)]
  {
    var call := FunctionCall(PrefixIdentifier("require"), Tuple([Str(literal)]), None);
    LocalAssignCollects(name, TypeCast(Call(call), ty));
    CastCollects(Call(call), ty);
    CallExpressionCollects(call);
    RequireCallCollects(literal, call.arguments);
  }

  /** `local name = value` collects what its value collects. */
  lemma LocalAssignCollects(name: string, value: Expression)
    ensures RequiredLiterals(BlockEvents(Block([LocalAssign([TypedIdentifier(name, None)], [value])], None)))
      == RequiredLiterals(ExpressionEvents(value))
  {
    var statement := LocalAssign([TypedIdentifier(name, None)], [value]);
    SingleStatementEvents(statement);
    assert ExpressionsEvents([value]) == ExpressionEvents(value) + ExpressionsEvents([]);
    assert ExpressionEvents(value) + [] == ExpressionEvents(value);
    assert StatementEvents(statement) == [StatementEvent(statement)] + ExpressionEvents(value);
    LiteralsOfNode(StatementEvent(statement), ExpressionEvents(value));
  }

  /** A type cast collects what its expression collects. */
  lemma CastCollects(value: Expression, ty: Type)
    ensures RequiredLiterals(ExpressionEvents(TypeCast(value, ty))) == RequiredLiterals(ExpressionEvents(value))
  {
    var cast := TypeCast(value, ty);
    CastEvents(value, ty);
    LiteralsOfNode(ExpressionEvent(cast), ExpressionEvents(value));
  }

  lemma CastEvents(value: Expression, ty: Type)
    ensures ExpressionEvents(TypeCast(value, ty)) == [ExpressionEvent(TypeCast(value, ty))] + ExpressionEvents(value)
  {
  }

  /** `require("./a").start()` is collected from the call prefix of the outer call, and only there. */
  lemma RequirePrefixCollected(literal: string)
    ensures var inner := FunctionCall(PrefixIdentifier("require"), Tuple([Str(literal)]), None);
      var outer := FunctionCall(PrefixField(FieldExpression(PrefixCall(inner), "start")), Tuple([]), None);
      RequiredLiterals(BlockEvents(Block([CallStatement(outer)], None))) == [NormalizeSpec(PathComponents(literal), true)]
  {
    var inner := FunctionCall(PrefixIdentifier("require"), Tuple([Str(literal)]), None);
    var outer := FunctionCall(PrefixField(FieldExpression(PrefixCall(inner), "start")), Tuple([]), None);
    SingleStatementEvents(CallStatement(outer));
    CallStatementCollects(outer);
    assert CallLiteral(outer) == [];
    CallCollectsChildren(outer);
    assert ArgumentsEvents(Tuple([])) == [];
    FieldPrefixCollects(PrefixCall(inner), "start");
    CallPrefixCollects(inner);
    RequireCallCollects(literal, inner.arguments);
  }

  /** A field prefix `p.name` collects what `p` collects. */
  lemma FieldPrefixCollects(prefix: Prefix, name: string)
    ensures RequiredLiterals(PrefixEvents(PrefixField(FieldExpression(prefix, name)))) == RequiredLiterals(PrefixEvents(prefix))
  {
    var field := PrefixField(FieldExpression(prefix, name));
    assert PrefixEvents(field) == [PrefixEvent(field)] + PrefixEvents(prefix);
    LiteralsOfNode(PrefixEvent(field), PrefixEvents(prefix));
  }

  /** A method call `require:x("a")`, a dotted `lib.require("a")`, a non-literal `require(name)` and two arguments are not collected. */
  lemma NonLiteralRequiresIgnored(literal: string, name: string)
    ensures RequireCall(FunctionCall(PrefixIdentifier("require"), Tuple([Str(literal)]), Some("x"))).None?
    ensures RequireCall(FunctionCall(PrefixField(FieldExpression(PrefixIdentifier("lib"), "require")), Tuple([Str(literal)]), None)).None?
    ensures RequireCall(FunctionCall(PrefixIdentifier("require"), Tuple([Identifier(name)]), None)).None?
    ensures RequireCall(FunctionCall(PrefixIdentifier("require"), Tuple([Str(literal), Str(literal)]), None)).None?
  {
  }

  /** A segment that is neither empty, `.` nor `..`, and has no separator. */
  predicate PlainName(name: string)
  {
    name != "" && name != "." && name != ".." && '/' !in name
  }

  /** `./x/../y` splits into its four segments. */
  lemma SplitParentPath(x: string, y: string)
    requires PlainName(x) && PlainName(y)
    ensures Split("./" + x + "/../" + y, '/') == [".", x, "..", y]
  {
    var s := "./" + x + "/../" + y;
    assert s == "." + ['/'] + (x + ['/'] + (".." + ['/'] + y));
    SplitAtSeparator(".", x + ['/'] + (".." + ['/'] + y), '/');
    SplitAtSeparator(x, ".." + ['/'] + y, '/');
    SplitAtSeparator("..", y, '/');
    SplitWithoutSeparator(y, '/');
  }

  /** `./x/../y` has the components `.`, `x`, `..`, `y`. */
  lemma ParentPathComponents(x: string, y: string)
    requires PlainName(x) && PlainName(y)
    ensures PathComponents("./" + x + "/../" + y) == [CurDir, Normal(x), ParentDir, Normal(y)]
  {
    SplitParentPath(x, y);
    var segments := [".", x, "..", y];
    var rest := segments[1..];
    assert SegmentComponents(rest[2..]) == [Normal(y)] + SegmentComponents([]);
    assert SegmentComponents(rest[1..]) == [ParentDir] + SegmentComponents(rest[2..]);
    assert SegmentComponents(rest) == [Normal(x)] + SegmentComponents(rest[1..]);
    assert ("./" + x + "/../" + y)[0] == '.';
  }

  /** `require("./x/../y")` names `./y`: the `..` cancels `x` and the leading `.` is kept. */
  lemma RequireParentPathNormalised(x: string, y: string)
    requires PlainName(x) && PlainName(y)
    ensures RequireCall(FunctionCall(PrefixIdentifier("require"), Tuple([Str("./" + x + "/../" + y)]), None))
      == Some([CurDir, Normal(y)])
  {
    ParentPathComponents(x, y);
    var path := [CurDir, Normal(x), ParentDir, Normal(y)];
    assert Start(path) == [] && Rest(path) == path;
    assert Run([], path, true) == Run([CurDir], [Normal(x), ParentDir, Normal(y)], true);
    assert [Normal(x), ParentDir, Normal(y)][1..] == [ParentDir, Normal(y)] && [ParentDir, Normal(y)][1..] == [Normal(y)];
    assert Step([CurDir], Normal(x), true) == [CurDir, Normal(x)];
    assert Run([CurDir], [Normal(x), ParentDir, Normal(y)], true) == Run([CurDir, Normal(x)], [ParentDir, Normal(y)], true);
    assert Run([CurDir, Normal(x)], [ParentDir, Normal(y)], true) == Run([CurDir], [Normal(y)], true);
    assert Run([CurDir], [Normal(y)], true) == Run([CurDir, Normal(y)], [], true);
  }
}
