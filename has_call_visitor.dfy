// `HasCallToFunctionVisitor` (src/commands/version/has_call_to_function_visitor.rs): decides
// whether an `if` condition calls the SDK-version probe function, directly or through a
// local bound to such a call.
module HasCallToFunction {
  import opened Wrappers
  import opened LuaAst
  import opened ScopedMap
  import opened DefaultVisitor
  import VersionUtils

  /** The resolver's binding environment: each local name with its optional initialiser. */
  type VariableScope = ScopedHashMap<string, Option<Expression>>

  /**
    * The name a call is made through: a bare identifier, or the dotted name of a field
    * chain of identifiers; None for an indexed, called or parenthesised callee.
    */
  function CalleeName(prefix: Prefix): (r: Option<string>)
    ensures prefix.PrefixIdentifier? ==> r == Some(prefix.name)
    ensures prefix.PrefixField? ==> r == VersionUtils.GetFqn(prefix.fieldExpression)
    ensures r.Some? ==> prefix.PrefixIdentifier? || prefix.PrefixField?
  {
    match prefix
    case PrefixIdentifier(name) => Some(name)
    case PrefixField(fieldExpression) => VersionUtils.GetFqn(fieldExpression)
    case _ => None
  }

  /** A call of the probe by name: not a method call, and made through the probe's name. */
  predicate IsProbeCall(probe: string, call: FunctionCall)
  {
    call.methodName.None? && CalleeName(call.prefix) == Some(probe)
  }

  /** A name bound in scope to a call whose callee is the bare identifier `probe`. */
  predicate IsBoundToProbeCall(probe: string, scope: VariableScope, name: string)
  {
    var binding: Option<Option<Expression>> := Get(scope, name);
    binding.Some? && binding.value.Some? && binding.value.value.Call?
    && binding.value.value.call.prefix == PrefixIdentifier(probe)
  }

  /** The callbacks that set the flag. */
  predicate Triggers(probe: string, scope: VariableScope, event: Event)
  {
    match event
    case ExpressionEvent(Identifier(name)) => IsBoundToProbeCall(probe, scope, name)
    case FunctionCallEvent(call) => IsProbeCall(probe, call)
    case _ => false
  }

  /** Some callback of a walk sets the flag. */
  predicate HasProbe(probe: string, scope: VariableScope, events: seq<Event>)
  {
    exists i :: 0 <= i < |events| && Triggers(probe, scope, events[i])
  }

  class HasCallToFunctionVisitor {
    const functionName: string
    var hasCallToFunctionField: bool
    const variableScope: VariableScope

    /** `new`: the flag starts cleared. */
    constructor (functionName: string, variableScope: VariableScope)
      ensures this.functionName == functionName && this.variableScope == variableScope
      ensures !hasCallToFunctionField
    {
      this.functionName := functionName;
      this.variableScope := variableScope;
      hasCallToFunctionField := false;
    }

    function HasCallToFunction(): bool
      reads this
    {
      hasCallToFunctionField
    }

    /** `process_expression`: an identifier bound to a call of the probe sets the flag. */
    method ProcessExpression(expression: Expression)
      modifies this
      ensures hasCallToFunctionField == (old(hasCallToFunctionField) || Triggers(functionName, variableScope, ExpressionEvent(expression)))
    {
      match expression {
        case Identifier(name) =>
          var maybeExpression := Get(variableScope, name);
          if maybeExpression.Some? && maybeExpression.value.Some? {
            var bound := maybeExpression.value.value;
            if bound.Call? && bound.call.prefix.PrefixIdentifier? {
              if bound.call.prefix.name == functionName {
                hasCallToFunctionField := true;
              }
            }
          }
        case _ =>
      }
    }

    /** `process_function_call`: a non-method call through the probe's name sets the flag. */
    method ProcessFunctionCall(call: FunctionCall)
      modifies this
      ensures hasCallToFunctionField == (old(hasCallToFunctionField) || Triggers(functionName, variableScope, FunctionCallEvent(call)))
    {
      if call.methodName.Some? {
        return;
      }
      var name := CalleeName(call.prefix);
      if name.Some? {
        if name.value == functionName {
          hasCallToFunctionField := true;
        }
      }
    }

    /** The `NodeProcessor` dispatch: the hooks this visitor does not override do nothing. */
    method Process(event: Event)
      modifies this
      ensures hasCallToFunctionField == (old(hasCallToFunctionField) || Triggers(functionName, variableScope, event))
    {
      match event {
        case ExpressionEvent(expression) => ProcessExpression(expression);
        case FunctionCallEvent(call) => ProcessFunctionCall(call);
        case _ =>
      }
    }

    /** `DefaultVisitor::visit_expression` with this visitor: every callback of the walk, in order. */
    method VisitExpression(expression: Expression)
      modifies this
      ensures hasCallToFunctionField == (old(hasCallToFunctionField) || HasProbe(functionName, variableScope, ExpressionEvents(expression)))
    {
      var events := ExpressionEvents(expression);
      var i := 0;
      while i < |events|
        invariant 0 <= i <= |events|
        invariant hasCallToFunctionField == (old(hasCallToFunctionField) || HasProbe(functionName, variableScope, events[..i]))
      {
        Process(events[i]);
        assert events[..i + 1] == events[..i] + [events[i]];
        i := i + 1;
      }
      assert events[..|events|] == events;
    }
  }

  /** A method call never sets the flag, whatever its callee. */
  lemma MethodCallNeverTriggers(probe: string, scope: VariableScope, call: FunctionCall)
    requires call.methodName.Some?
    ensures !Triggers(probe, scope, FunctionCallEvent(call))
  {
  }

  /** A call through an indexed, called or parenthesised callee never sets the flag. */
  lemma UnnamedCalleeNeverTriggers(probe: string, scope: VariableScope, call: FunctionCall)
    requires call.prefix.PrefixIndex? || call.prefix.PrefixCall? || call.prefix.PrefixParenthese?
    ensures !Triggers(probe, scope, FunctionCallEvent(call))
  {
  }

  /** A call through a field chain sets the flag exactly when its dotted name is the probe. */
  lemma DottedCalleeTriggers(probe: string, scope: VariableScope, call: FunctionCall)
    requires call.methodName.None? && call.prefix.PrefixField?
    ensures Triggers(probe, scope, FunctionCallEvent(call)) <==> VersionUtils.GetFqn(call.prefix.fieldExpression) == Some(probe)
  {
  }

  /**
    * An identifier sets the flag only when bound to a call through the bare probe name:
    * an unbound name, a name bound without initialiser or to a non-call, or a binding to
    * a call through a dotted name does not.
    */
  lemma IdentifierTriggers(probe: string, scope: VariableScope, name: string)
    ensures Triggers(probe, scope, ExpressionEvent(Identifier(name))) <==>
      exists call :: Get(scope, name) == Some(Some(Call(call))) && call.prefix == PrefixIdentifier(probe)
  {
    if Triggers(probe, scope, ExpressionEvent(Identifier(name))) {
      var call := Get(scope, name).value.value.call;
      assert Get(scope, name) == Some(Some(Call(call)));
    }
  }

  /** The flag over a walk is the disjunction over its parts. */
  lemma HasProbeAppend(probe: string, scope: VariableScope, a: seq<Event>, b: seq<Event>)
    ensures HasProbe(probe, scope, a + b) <==> HasProbe(probe, scope, a) || HasProbe(probe, scope, b)
  {
    if HasProbe(probe, scope, a + b) {
      var i :| 0 <= i < |a + b| && Triggers(probe, scope, (a + b)[i]);
      if i >= |a| {
        assert Triggers(probe, scope, b[i - |a|]);
      }
    }
    if HasProbe(probe, scope, a) {
      var i :| 0 <= i < |a| && Triggers(probe, scope, a[i]);
      assert (a + b)[i] == a[i];
    }
    if HasProbe(probe, scope, b) {
      var i :| 0 <= i < |b| && Triggers(probe, scope, b[i]);
      assert (a + b)[|a| + i] == b[i];
    }
  }

  /** `get_sdk_version() > 15`: a direct call of the probe in a condition is detected. */
  lemma DirectProbeInCondition(scope: VariableScope)
    ensures HasProbe("get_sdk_version", scope,
      ExpressionEvents(Binary(">", Call(FunctionCall(PrefixIdentifier("get_sdk_version"), Tuple([]), None)), Number("15"))))
  {
    var call := FunctionCall(PrefixIdentifier("get_sdk_version"), Tuple([]), None);
    var condition := Binary(">", Call(call), Number("15"));
    assert ExpressionEvents(condition)[2] == FunctionCallEvent(call);
  }

  /**
    * `local version = get_sdk_version()` followed by `version > 15`: the identifier is
    * detected through its binding.
    */
  lemma BoundProbeInCondition()
    ensures var call := FunctionCall(PrefixIdentifier("get_sdk_version"), Tuple([]), None);
      HasProbe("get_sdk_version", Insert(Push(Default()), "version", Some(Call(call))),
        ExpressionEvents(Binary(">", Identifier("version"), Number("15"))))
  {
    var call := FunctionCall(PrefixIdentifier("get_sdk_version"), Tuple([]), None);
    var scope := Insert(Push(Default()), "version", Some(Call(call)));
    GetAfterInsert(Push(Default()), "version", Some(Call(call)), "version");
    var condition := Binary(">", Identifier("version"), Number("15"));
    assert ExpressionEvents(condition)[1] == ExpressionEvent(Identifier("version"));
  }

  /** `(get_sdk_version() :: number) > 15`: a probe call under a type cast is detected too. */
  lemma CastProbeInCondition(scope: VariableScope, ty: Type)
    ensures HasProbe("get_sdk_version", scope,
      ExpressionEvents(Binary(">", TypeCast(Call(FunctionCall(PrefixIdentifier("get_sdk_version"), Tuple([]), None)), ty), Number("15"))))
  {
    var call := FunctionCall(PrefixIdentifier("get_sdk_version"), Tuple([]), None);
    var cast := TypeCast(Call(call), ty);
    var condition := Binary(">", cast, Number("15"));
    assert ExpressionEvents(Call(call)) == [ExpressionEvent(Call(call))] + FunctionCallEvents(call);
    assert ExpressionEvents(cast) == [ExpressionEvent(cast)] + ExpressionEvents(Call(call));
    assert ExpressionEvents(cast)[2] == FunctionCallEvent(call);
    assert ExpressionEvents(condition) == [ExpressionEvent(condition)] + (ExpressionEvents(cast) + ExpressionEvents(Number("15")));
    assert ExpressionEvents(condition)[3] == FunctionCallEvent(call);
  }
}
