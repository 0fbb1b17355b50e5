// The flow-parameter schema extractor of src/commands/bundle/param_extractor.rs as
// functions: how a Luau type annotation on `main`'s parameter becomes a list of `Param`
// variants, how comments become descriptions, and what `process_block` collects from the
// top-level statements. The object that runs these steps in place is in ParamExtraction.
module ParamSchema {
  import opened Wrappers
  import opened Strings
  import opened LuaAst

  /** `Param`: one field of a flow's parameter table. */
  datatype Param = Param(name: string, description: string, ty: string, required: bool)

  /** `ParamVariant`: the fields of one accepted shape of the parameter table. */
  type ParamVariant = seq<Param>

  /** `Module`: a required module's top-level type declarations, by name. */
  datatype Module = Module(localTypes: map<string, TypeDeclaration>)

  datatype ModuleEnum = Resolved(resolvedModule: Module) | NotYetResolved

  /** A top-level `function main(...)` statement, as `process_block` keeps it. */
  datatype FunctionDecl = FunctionDecl(name: FunctionName, parameters: seq<TypedIdentifier>, body: Block)

  /** The extractor's failures, one constructor per message of the source. */
  datatype ExtractError =
    | TypeNotFoundInMainModule(typeName: string)
    | ModuleNotFound(moduleName: string)
    | TypeNotFoundInModule(typeName: string)
    | UnsupportedPrimitiveType(typeName: string)
    | UnsupportedTypeDeclaration(declaredType: Type)
    | UnsupportedSimpleType(simpleType: Type)
    | UnsupportedSimpleUnionType(memberType: Type)
    | ExpectedUnionType(actualType: Type)
    | FieldTypeInUnion
    | NameTypeInUnion
    | UnsupportedOptionalInUnion(optionalInner: Type)
    | NilTypeInUnion
    | UnsupportedUnionType(unionMember: Type)
    | ExpectedProperty(entry: TableEntryType)
    | UnsupportedArrayType(elementType: Type)
    | FieldTypeNotSupported
    | FunctionTypeNotSupported
    | IntersectionTypeNotSupported
    | NilTypeNotSupported
    | UnsupportedOptionalInParenthese(parentheseInner: Type)
    | UnsupportedOptionalType(innerType: Type)
    | UnsupportedParentheseType(parentheseType: Type)
    | TableTypeNotSupported
    | TypeOfNotSupported
    | ExternalFieldTypeNotSupported
    | ModuleNotInModules(missingModule: string)
    | TypeDeclarationNotFound(missingType: string)
    | NoMainFunction
    | TooManyParameters(count: nat)
    | NoParameterType
    | ErrorResolvingTypeTable(tableCause: ExtractError)
    | ErrorResolvingModule(moduleCause: ExtractError)
    | UserDefinedTypeNotSupported(builtinName: string)
    | ErrorResolvingTypeDeclaration(declarationCause: ExtractError)
    | UnsupportedParameterType(parameterType: Type)

  // ---- collecting results in order, stopping at the first error ----

  /**
    * A loop that pushes `f(x)?` for every `x` of `xs`: one result per element, in order, or
    * the error of the first element that fails.
    */
  function TryMap<A, B, E>(xs: seq<A>, f: A -> Result<B, E>): (r: Result<seq<B>, E>)
    ensures r.Ok? <==> forall i :: 0 <= i < |xs| ==> f(xs[i]).Ok?
    ensures r.Ok? ==> |r.value| == |xs| && forall i :: 0 <= i < |xs| ==> r.value[i] == f(xs[i]).value
    ensures r.Err? ==> exists i :: 0 <= i < |xs| && f(xs[i]).Err? && r.error == f(xs[i]).error
                                   && forall j :: 0 <= j < i ==> f(xs[j]).Ok?
    decreases |xs|
  {
    if xs == [] then Ok([])
    else
      match f(xs[0])
      case Err(e) => Err(e)
      case Ok(y) =>
        var rest := TryMap(xs[1..], f);
        assert forall i :: 1 <= i < |xs| ==> xs[1..][i - 1] == xs[i];
        match rest
        case Err(e) =>
          assert exists i :: 0 <= i < |xs| && f(xs[i]).Err? && e == f(xs[i]).error
                             && forall j :: 0 <= j < i ==> f(xs[j]).Ok? by {
            var k :| 0 <= k < |xs[1..]| && f(xs[1..][k]).Err? && e == f(xs[1..][k]).error
                     && forall j :: 0 <= j < k ==> f(xs[1..][j]).Ok?;
            assert forall j :: 1 <= j < k + 1 ==> f(xs[j]).Ok? by {
              forall j | 1 <= j < k + 1 ensures f(xs[j]).Ok? {
                assert xs[j] == xs[1..][j - 1];
              }
            }
            assert f(xs[k + 1]).Err? && e == f(xs[k + 1]).error;
          }
          Err(e)
        case Ok(ys) => Ok([y] + ys)
  }

  /** The results gathered so far, in front of those of the rest of the loop. */
  function PrependOk<B, E>(done: seq<B>, rest: Result<seq<B>, E>): Result<seq<B>, E>
  {
    match rest
    case Ok(ys) => Ok(done + ys)
    case Err(e) => Err(e)
  }

  /** One more turn of a `TryMap` loop. */
  lemma TryMapStep<A, B, E>(xs: seq<A>, f: A -> Result<B, E>, i: nat, done: seq<B>)
    requires i < |xs|
    ensures PrependOk(done, TryMap(xs[i..], f))
      == (match f(xs[i])
          case Err(e) => Err(e)
          case Ok(y) => PrependOk(done + [y], TryMap(xs[i + 1..], f)))
  {
    assert xs[i..][1..] == xs[i + 1..];
    assert xs[i..][0] == xs[i];
    match f(xs[i])
    case Err(_) =>
    case Ok(y) =>
      match TryMap(xs[i + 1..], f)
      case Err(_) =>
      case Ok(ys) =>
        assert done + ([y] + ys) == done + [y] + ys;
  }

  /** Before a `TryMap` loop: nothing gathered, the whole sequence ahead. */
  lemma TryMapStart<A, B, E>(xs: seq<A>, f: A -> Result<B, E>)
    ensures TryMap(xs, f) == PrependOk([], TryMap(xs[0..], f))
  {
    assert xs[0..] == xs;
    match TryMap(xs, f)
    case Err(_) =>
    case Ok(ys) => assert [] + ys == ys;
  }

  /** After a `TryMap` loop: everything gathered. */
  lemma TryMapFinish<A, B, E>(xs: seq<A>, f: A -> Result<B, E>, done: seq<B>)
    ensures PrependOk(done, TryMap(xs[|xs|..], f)) == Ok(done)
  {
    assert xs[|xs|..] == [];
    assert done + [] == done;
  }

  // ---- names and type lookups ----

  /** The names `is_user_defined_type` treats as built in. */
  const BuiltinTypeNames: set<string> :=
    {"any", "boolean", "buffer", "never", "nil", "number", "string", "thread", "unknown", "vector"}

  /** `is_user_defined_type`. */
  predicate IsUserDefinedType(typeName: string)
  {
    typeName !in BuiltinTypeNames
  }

  /** The three built-in names a field may use directly. */
  const PrimitiveTypeNames: set<string> := {"string", "number", "boolean"}

  /**
    * Where `get_type_decl_for_name` looks names up: the main module's declarations when the
    * current module path is empty, otherwise the local types of the current module, which
    * may be missing from the module map.
    */
  datatype TypeScope =
    | MainModule(mainModuleTypes: map<string, TypeDeclaration>)
    | RequiredModule(modulePath: string, localTypes: Option<map<string, TypeDeclaration>>)
  {
    function KnownTypes(): Option<map<string, TypeDeclaration>>
    {
      match this
      case MainModule(types) => Some(types)
      case RequiredModule(_, types) => types
    }
  }

  /**
    * `get_type_decl_for_name`: the declaration of `name` in scope; a missing module or a
    * missing name is an error naming it.
    */
  function GetTypeDeclForName(scope: TypeScope, name: string): (r: Result<TypeDeclaration, ExtractError>)
    ensures r.Ok? <==> scope.KnownTypes().Some? && name in scope.KnownTypes().value
    ensures r.Ok? ==> r.value == scope.KnownTypes().value[name]
    ensures scope.RequiredModule? && scope.localTypes.None? ==> r == Err(ModuleNotFound(scope.modulePath))
    ensures scope.MainModule? && r.Err? ==> r.error == TypeNotFoundInMainModule(name)
  {
    match scope
    case MainModule(types) =>
      if name in types then Ok(types[name]) else Err(TypeNotFoundInMainModule(name))
    case RequiredModule(path, None) => Err(ModuleNotFound(path))
    case RequiredModule(_, Some(types)) =>
      if name in types then Ok(types[name]) else Err(TypeNotFoundInModule(name))
  }

  // ---- unions of string literals ----

  /** `format!("\"{}\"", s)` */
  function Quote(s: string): string
  {
    "\"" + s + "\""
  }

  /**
    * The three loops that render a union member by member: the declaration a field's
    * user-defined name stands for, `resolve_simple_union_type` and `resolve_union_type`.
    */
  datatype UnionContext = DeclaredStringUnion(declaredType: Type) | SimpleUnion | FieldUnion

  /** How one member of a union is rendered, or why it is rejected. */
  function RenderMember(context: UnionContext, member: Type): (r: Result<string, ExtractError>)
    ensures r.Ok? ==> exists s :: r.value == Quote(s)
  {
    match context
    case DeclaredStringUnion(declaredType) =>
      if member.StringType? then Ok(Quote(member.value)) else Err(UnsupportedTypeDeclaration(declaredType))
    case SimpleUnion =>
      if member.StringType? then Ok(Quote(member.value)) else Err(UnsupportedSimpleUnionType(member))
    case FieldUnion =>
      match member
      case StringType(s) => Ok(Quote(s))
      case TypeField(_, _) => Err(FieldTypeInUnion)
      case TypeName(_) => Err(NameTypeInUnion)
      case OptionalType(inner) =>
        if inner.StringType? then Ok(Quote(inner.value)) else Err(UnsupportedOptionalInUnion(inner))
      case NilType => Err(NilTypeInUnion)
      case _ => Err(UnsupportedUnionType(member))
  }

  function RenderMemberFn(context: UnionContext): Type -> Result<string, ExtractError>
  {
    (member: Type) => RenderMember(context, member)
  }

  /** The members rendered in order and joined by `" | "`. */
  function RenderUnion(context: UnionContext, members: seq<Type>): Result<string, ExtractError>
  {
    match TryMap(members, RenderMemberFn(context))
    case Ok(tys) => Ok(Join(tys, " | "))
    case Err(e) => Err(e)
  }

  /** Every member is a string literal. */
  predicate AllStringLiterals(members: seq<Type>)
  {
    forall i :: 0 <= i < |members| ==> members[i].StringType?
  }

  /** The quoted values of a union of string literals. */
  function QuotedValues(members: seq<Type>): (r: seq<string>)
    requires AllStringLiterals(members)
    ensures |r| == |members|
    ensures forall i :: 0 <= i < |members| ==> r[i] == Quote(members[i].value)
  {
    seq(|members|, i requires 0 <= i < |members| => Quote(members[i].value))
  }

  /**
    * A union of string literals renders the same in every context, as its quoted values
    * joined by `" | "`; any other member makes it fail, except that a field's union also
    * takes optional string literals.
    */
  lemma RenderStringUnion(context: UnionContext, members: seq<Type>)
    ensures !context.FieldUnion? ==> (RenderUnion(context, members).Ok? <==> AllStringLiterals(members))
    ensures AllStringLiterals(members) ==> RenderUnion(context, members) == Ok(Join(QuotedValues(members), " | "))
  {
    var f := RenderMemberFn(context);
    if AllStringLiterals(members) {
      var tys := TryMap(members, f).value;
      assert forall i :: 0 <= i < |members| ==> tys[i] == QuotedValues(members)[i];
      assert tys == QuotedValues(members);
    } else if !context.FieldUnion? {
      var i :| 0 <= i < |members| && !members[i].StringType?;
      assert f(members[i]).Err?;
    }
  }

  /** `resolve_simple_union_type`: a union of string literals, the element type of an array field. */
  function SimpleUnionType(ty: Type): Result<string, ExtractError>
  {
    if ty.UnionType? then RenderUnion(SimpleUnion, ty.types) else Err(ExpectedUnionType(ty))
  }

  /** `resolve_union_type`: the union a field is typed with; `"A"?` members are accepted too. */
  function FieldUnionType(ty: Type): Result<string, ExtractError>
  {
    if ty.UnionType? then RenderUnion(FieldUnion, ty.types) else Err(ExpectedUnionType(ty))
  }

  /**
    * `resolve_union_type` accepts exactly the unions whose members are string literals or
    * optional string literals, rendering each as its quoted value.
    */
  lemma FieldUnionAcceptsOptionalLiterals(members: seq<Type>)
    ensures FieldUnionType(UnionType(members)).Ok?
      <==> forall i :: 0 <= i < |members| ==>
             members[i].StringType? || (members[i].OptionalType? && members[i].innerType.StringType?)
  {
    var f := RenderMemberFn(FieldUnion);
    forall i | 0 <= i < |members|
      ensures f(members[i]).Ok?
          <==> members[i].StringType? || (members[i].OptionalType? && members[i].innerType.StringType?)
    {
    }
  }

  // ---- field types ----

  /** The type shapes `resolve_simple_type` is called on directly. */
  predicate IsSimpleShape(ty: Type)
  {
    ty.FalseType? || ty.TypeName? || ty.StringType? || ty.TrueType?
  }

  /**
    * `resolve_simple_type`: `false`, `true`, the three primitive names and string literals
    * render as themselves (literals quoted); an optional type renders as its inner type; any
    * other user-defined name must be declared as a union of string literals.
    */
  function SimpleType(scope: TypeScope, ty: Type): Result<string, ExtractError>
  {
    match ty
    case FalseType => Ok("false")
    case TypeName(name) =>
      if name in PrimitiveTypeNames then Ok(name)
      else if !IsUserDefinedType(name) then Err(UnsupportedPrimitiveType(name))
      else
        (match GetTypeDeclForName(scope, name)
         case Err(e) => Err(e)
         case Ok(decl) =>
           if decl.declaredType.UnionType? then RenderUnion(DeclaredStringUnion(decl.declaredType), decl.declaredType.types)
           else Err(UnsupportedTypeDeclaration(decl.declaredType)))
    case StringType(s) => Ok(Quote(s))
    case TrueType => Ok("true")
    case OptionalType(inner) => SimpleType(scope, inner)
    case _ => Err(UnsupportedSimpleType(ty))
  }

  /** Built-in names: the three primitives render as themselves, every other one is refused. */
  lemma SimpleTypeOfBuiltinName(scope: TypeScope, name: string)
    requires !IsUserDefinedType(name)
    ensures SimpleType(scope, TypeName(name)) ==
      if name in PrimitiveTypeNames then Ok(name) else Err(UnsupportedPrimitiveType(name))
  {
  }

  /**
    * A user-defined name is accepted exactly when it is declared in scope as a union of
    * string literals, and then renders as their quoted values joined by `" | "`.
    */
  lemma SimpleTypeOfUserDefinedName(scope: TypeScope, name: string)
    requires IsUserDefinedType(name)
    ensures SimpleType(scope, TypeName(name)).Ok? <==>
      GetTypeDeclForName(scope, name).Ok?
      && GetTypeDeclForName(scope, name).value.declaredType.UnionType?
      && AllStringLiterals(GetTypeDeclForName(scope, name).value.declaredType.types)
    ensures SimpleType(scope, TypeName(name)).Ok? ==>
      SimpleType(scope, TypeName(name)).value
        == Join(QuotedValues(GetTypeDeclForName(scope, name).value.declaredType.types), " | ")
  {
    assert name !in PrimitiveTypeNames;
    var decl := GetTypeDeclForName(scope, name);
    if decl.Ok? && decl.value.declaredType.UnionType? {
      RenderStringUnion(DeclaredStringUnion(decl.value.declaredType), decl.value.declaredType.types);
    }
  }

  /** An optional type resolves like the type it wraps, however deeply nested. */
  lemma {:induction false} SimpleTypeSeesThroughOptional(scope: TypeScope, ty: Type)
    ensures SimpleType(scope, ty) == SimpleType(scope, StripOptional(ty))
    decreases ty
  {
    if ty.OptionalType? {
      SimpleTypeSeesThroughOptional(scope, ty.innerType);
    }
  }

  function StripOptional(ty: Type): (r: Type)
    ensures !r.OptionalType?
    decreases ty
  {
    if ty.OptionalType? then StripOptional(ty.innerType) else ty
  }

  /**
    * The type string of a table field exactly as lines 365-443 compute it. The array and
    * parenthesised arms hand the outer node itself to resolvers that reject it.
    */
  function FieldTypeAsWritten(scope: TypeScope, value: Type): Result<string, ExtractError>
  {
    match value
    case ArrayType(element) =>
      var ty :=
        if IsSimpleShape(element) then SimpleType(scope, value)
        else if element.UnionType? then SimpleUnionType(value)
        else Err(UnsupportedArrayType(element));
      if ty.Ok? then Ok("Vec<" + ty.value + ">") else ty
    case FalseType => SimpleType(scope, value)
    case TypeName(_) => SimpleType(scope, value)
    case StringType(_) => SimpleType(scope, value)
    case TrueType => SimpleType(scope, value)
    case TypeField(_, _) => Err(FieldTypeNotSupported)
    case FunctionType => Err(FunctionTypeNotSupported)
    case IntersectionType(_) => Err(IntersectionTypeNotSupported)
    case NilType => Err(NilTypeNotSupported)
    case OptionalType(inner) =>
      if IsSimpleShape(inner) then SimpleType(scope, value)
      else if inner.UnionType? then FieldUnionType(value)
      else if inner.ParentheseType? then
        if inner.innerType.UnionType? then FieldUnionType(inner.innerType)
        else Err(UnsupportedOptionalInParenthese(inner.innerType))
      else Err(UnsupportedOptionalType(inner))
    case ParentheseType(inner) =>
      var ty :=
        if IsSimpleShape(inner) then SimpleType(scope, value)
        else if inner.UnionType? then FieldUnionType(value)
        else Err(UnsupportedParentheseType(value));
      if ty.Ok? then Ok("(" + ty.value + ")") else ty
    case TableType(_) => Err(TableTypeNotSupported)
    case TypeOfType => Err(TypeOfNotSupported)
    case UnionType(_) => FieldUnionType(value)
  }

  /** As written, every array field and every parenthesised field is rejected. */
  lemma ArrayAndParentheseFieldsFailAsWritten(scope: TypeScope, value: Type)
    requires value.ArrayType? || value.ParentheseType?
    ensures FieldTypeAsWritten(scope, value).Err?
  {
  }

  /** `{ string }`, the simplest array field, is refused by the code as written. */
  lemma ArrayOfStringsAsWritten(scope: TypeScope)
    ensures FieldTypeAsWritten(scope, ArrayType(TypeName("string")))
      == Err(UnsupportedSimpleType(ArrayType(TypeName("string"))))
  {
  }

  /**
    * The field type with the array and parenthesised arms resolving the element and inner
    * type, which is what their `Vec<..>` and `(..)` wrappers are there for.
    */
  function FieldType(scope: TypeScope, value: Type): Result<string, ExtractError>
  {
    match value
    case ArrayType(element) =>
      var ty :=
        if IsSimpleShape(element) then SimpleType(scope, element)
        else if element.UnionType? then SimpleUnionType(element)
        else Err(UnsupportedArrayType(element));
      if ty.Ok? then Ok("Vec<" + ty.value + ">") else ty
    case ParentheseType(inner) =>
      var ty :=
        if IsSimpleShape(inner) then SimpleType(scope, inner)
        else if inner.UnionType? then FieldUnionType(inner)
        else Err(UnsupportedParentheseType(value));
      if ty.Ok? then Ok("(" + ty.value + ")") else ty
    case _ => FieldTypeAsWritten(scope, value)
  }

  /**
    * With the correction, an array of a simple type is accepted exactly when a field of
    * the element type is, and renders as `Vec<..>` around it; an array of string literals
    * renders as `Vec<"A" | "B">`.
    */
  lemma ArrayFieldWrapsElement(scope: TypeScope, element: Type)
    ensures IsSimpleShape(element) ==>
      FieldType(scope, ArrayType(element)).Ok? == FieldType(scope, element).Ok?
      && (FieldType(scope, element).Ok? ==>
            FieldType(scope, ArrayType(element)).value == "Vec<" + FieldType(scope, element).value + ">")
    ensures element.UnionType? && AllStringLiterals(element.types) ==>
      FieldType(scope, ArrayType(element)) == Ok("Vec<" + Join(QuotedValues(element.types), " | ") + ">")
  {
    if element.UnionType? {
      RenderStringUnion(SimpleUnion, element.types);
    }
  }

  /**
    * With the correction, `(T)` is accepted exactly when a field of type `T` is, for a
    * simple `T` or a union, and renders as `T`'s type in parentheses.
    */
  lemma ParentheseFieldWrapsInner(scope: TypeScope, inner: Type)
    requires IsSimpleShape(inner) || inner.UnionType?
    ensures FieldType(scope, ParentheseType(inner)).Ok? == FieldType(scope, inner).Ok?
    ensures FieldType(scope, inner).Ok? ==>
      FieldType(scope, ParentheseType(inner)).value == "(" + FieldType(scope, inner).value + ")"
  {
  }

  /** The two definitions differ on array and parenthesised fields only. */
  lemma FieldTypeCorrectionIsLocal(scope: TypeScope, value: Type)
    requires !value.ArrayType? && !value.ParentheseType?
    ensures FieldType(scope, value) == FieldTypeAsWritten(scope, value)
  {
  }

  // ---- comments ----

  /** `is_multiline_comment` */
  predicate IsMultilineComment(comment: string)
  {
    StartsWith(comment, "--[[") && EndsWith(comment, "]]")
  }

  /** A comment that starts with `--[[` and ends with `]]` has room for both. */
  lemma MultilineCommentIsLongEnough(comment: string)
    requires IsMultilineComment(comment)
    ensures |comment| >= 6
  {
    assert comment[..4] == "--[[";
    assert comment[2] == '[' && comment[3] == '[';
    var n := |comment|;
    assert comment[n - 2..] == "]]";
    assert comment[n - 2] == ']' && comment[n - 1] == ']';
  }

  function TrimLines(lines: seq<string>): (r: seq<string>)
    ensures |r| == |lines|
    ensures forall i :: 0 <= i < |lines| ==> r[i] == Trim(lines[i])
  {
    seq(|lines|, i requires 0 <= i < |lines| => Trim(lines[i]))
  }

  /** The text between `--[[` and `]]` of a multi-line comment. */
  function MultilineBody(comment: string): string
    requires IsMultilineComment(comment)
  {
    MultilineCommentIsLongEnough(comment);
    comment[4..|comment| - 2]
  }

  /**
    * One comment as a description: a `--[[ ... ]]` comment loses its delimiters and every
    * line is trimmed; any other comment loses its `--` and is trimmed.
    */
  function CommentString(content: string): string
  {
    var comment := "--" + content;
    if IsMultilineComment(comment) then Join(TrimLines(Split(MultilineBody(comment), '\n')), "\n")
    else Trim(comment[2..])
  }

  /** The comments among a token's leading trivia, each as a description. */
  function CommentStrings(trivia: seq<Trivia>): (r: seq<string>)
    ensures |r| <= |trivia|
    decreases |trivia|
  {
    if trivia == [] then []
    else
      var rest := CommentStrings(trivia[1..]);
      if trivia[0].Comment? then [CommentString(trivia[0].content)] + rest else rest
  }

  /** `get_string_comment`: the token's leading comments, joined by newlines. */
  function StringComment(token: Token): string
  {
    Join(CommentStrings(token.leadingTrivia), "\n")
  }

  /** A one-line comment reads as its text after `--`, trimmed. */
  lemma SingleLineCommentIsTrimmed(content: string)
    requires !IsMultilineComment("--" + content)
    ensures CommentString(content) == Trim(content)
  {
    assert ("--" + content)[2..] == content;
  }

  /** A trimmed line is a slice of the line, so it holds no character the line does not. */
  lemma TrimKeepsOut(line: string, c: char)
    requires c !in line
    ensures c !in Trim(line)
  {
    var i, j :| 0 <= i <= j <= |line| && Trim(line) == line[i..j] && AllWhitespace(line[..i]) && AllWhitespace(line[j..]);
  }

  /**
    * The lines of a multi-line comment's description are the lines between its delimiters,
    * each trimmed, in order and none lost.
    */
  lemma MultilineCommentLines(content: string)
    requires IsMultilineComment("--" + content)
    ensures Split(CommentString(content), '\n') == TrimLines(Split(MultilineBody("--" + content), '\n'))
  {
    var lines := Split(MultilineBody("--" + content), '\n');
    var trimmed := TrimLines(lines);
    forall k | 0 <= k < |trimmed| ensures '\n' !in trimmed[k] {
      TrimKeepsOut(lines[k], '\n');
    }
    SplitJoin(trimmed, '\n');
  }

  // ---- table fields ----

  /** The description of a property: the comments before its name token, if it kept one. */
  function Description(token: Option<Token>): string
  {
    if token.Some? then StringComment(token.value) else ""
  }

  /** One `Param` from a table entry: name, description, type, and required unless optional. */
  function FieldParam(scope: TypeScope, name: string, token: Option<Token>, value: Type): (r: Result<Param, ExtractError>)
    ensures r.Ok? ==> r.value.name == name && r.value.description == Description(token)
    ensures r.Ok? ==> (r.value.required <==> !value.OptionalType?)
    ensures r.Ok? <==> FieldType(scope, value).Ok?
  {
    match FieldType(scope, value)
    case Ok(ty) => Ok(Param(name, Description(token), ty, !value.OptionalType?))
    case Err(e) => Err(e)
  }

  /** The loop body of `resolve_type_table`: properties and string-literal keys, nothing else. */
  function ParamOf(scope: TypeScope, entry: TableEntryType): Result<Param, ExtractError>
  {
    match entry
    case PropertyEntry(name, token, value) => FieldParam(scope, name, token, value)
    case LiteralEntry(literal, token, value) => FieldParam(scope, literal, token, value)
    case IndexerEntry(_, _) => Err(ExpectedProperty(entry))
  }

  function ParamOfFn(scope: TypeScope): TableEntryType -> Result<Param, ExtractError>
  {
    (entry: TableEntryType) => ParamOf(scope, entry)
  }

  /** `resolve_type_table` */
  function TableParams(scope: TypeScope, entries: seq<TableEntryType>): Result<ParamVariant, ExtractError>
  {
    TryMap(entries, ParamOfFn(scope))
  }

  /** The key of a property or string-literal entry. */
  function EntryName(entry: TableEntryType): string
    requires !entry.IndexerEntry?
  {
    if entry.PropertyEntry? then entry.propertyName else entry.literal
  }

  function EntryType(entry: TableEntryType): Type
    requires !entry.IndexerEntry?
  {
    if entry.PropertyEntry? then entry.propertyType else entry.literalType
  }

  function EntryToken(entry: TableEntryType): Option<Token>
    requires !entry.IndexerEntry?
  {
    if entry.PropertyEntry? then entry.propertyToken else entry.literalToken
  }

  /**
    * A resolved table has one `Param` per entry, in entry order, named by the entry's key,
    * described by its comments, of the entry's field type, and required unless the entry is
    * optional; a table with an index signature is refused.
    */
  lemma TableParamsShape(scope: TypeScope, entries: seq<TableEntryType>)
    ensures TableParams(scope, entries).Ok? ==>
      |TableParams(scope, entries).value| == |entries|
      && forall i :: 0 <= i < |entries| ==>
           !entries[i].IndexerEntry?
           && TableParams(scope, entries).value[i] ==
                Param(EntryName(entries[i]), Description(EntryToken(entries[i])),
                      FieldType(scope, EntryType(entries[i])).value, !EntryType(entries[i]).OptionalType?)
    ensures (exists i :: 0 <= i < |entries| && entries[i].IndexerEntry?) ==> TableParams(scope, entries).Err?
  {
    var f := ParamOfFn(scope);
    var r := TableParams(scope, entries);
    if r.Ok? {
      forall i | 0 <= i < |entries|
        ensures !entries[i].IndexerEntry?
        ensures r.value[i] == Param(EntryName(entries[i]), Description(EntryToken(entries[i])),
                                    FieldType(scope, EntryType(entries[i])).value, !EntryType(entries[i]).OptionalType?)
      {
        assert f(entries[i]).Ok?;
      }
    }
    if exists i :: 0 <= i < |entries| && entries[i].IndexerEntry? {
      var i :| 0 <= i < |entries| && entries[i].IndexerEntry?;
      assert f(entries[i]).Err?;
    }
  }

  // ---- parameter type declarations ----

  /**
    * `resolve_type_decl_for_param_variant`: a table, or a name declared in scope as a
    * table, gives one variant; anything else is refused.
    */
  function VariantOf(scope: TypeScope, ty: Type): Result<ParamVariant, ExtractError>
  {
    match ty
    case TableType(table) => TableParams(scope, table.entries)
    case TypeField(_, _) => Err(ExternalFieldTypeNotSupported)
    case TypeName(name) =>
      (match GetTypeDeclForName(scope, name)
       case Err(e) => Err(e)
       case Ok(decl) =>
         if decl.declaredType.TableType? then TableParams(scope, decl.declaredType.table.entries)
         else Err(UnsupportedTypeDeclaration(decl.declaredType)))
    case _ => Err(UnsupportedTypeDeclaration(ty))
  }

  function VariantOfFn(scope: TypeScope): Type -> Result<ParamVariant, ExtractError>
  {
    (ty: Type) => VariantOf(scope, ty)
  }

  /** One member of a `type Params = A | B` union: tables and fields directly, names through their declaration. */
  function UnionMemberVariant(scope: TypeScope, member: Type): Result<ParamVariant, ExtractError>
  {
    match member
    case TableType(_) => VariantOf(scope, member)
    case TypeField(_, _) => VariantOf(scope, member)
    case TypeName(name) =>
      (match GetTypeDeclForName(scope, name)
       case Err(e) => Err(e)
       case Ok(decl) => VariantOf(scope, decl.declaredType))
    case _ => Err(UnsupportedUnionType(member))
  }

  function UnionMemberVariantFn(scope: TypeScope): Type -> Result<ParamVariant, ExtractError>
  {
    (member: Type) => UnionMemberVariant(scope, member)
  }

  /** A single variant as a list of variants. */
  function Single(r: Result<ParamVariant, ExtractError>): Result<seq<ParamVariant>, ExtractError>
  {
    match r
    case Ok(v) => Ok([v])
    case Err(e) => Err(e)
  }

  /**
    * `resolve_params_type_decl`: a table or a name gives one variant, a union one variant
    * per member, and a field the variants of the union (or the single type) its type name
    * is declared as in the current scope.
    */
  function DeclVariants(scope: TypeScope, declaredType: Type): Result<seq<ParamVariant>, ExtractError>
  {
    match declaredType
    case TableType(_) => Single(VariantOf(scope, declaredType))
    case TypeName(_) => Single(VariantOf(scope, declaredType))
    case TypeField(_, typeName) =>
      (match GetTypeDeclForName(scope, typeName)
       case Err(e) => Err(e)
       case Ok(decl) =>
         if decl.declaredType.UnionType? then TryMap(decl.declaredType.types, VariantOfFn(scope))
         else Single(VariantOf(scope, decl.declaredType)))
    case UnionType(members) => TryMap(members, UnionMemberVariantFn(scope))
    case _ => Err(UnsupportedTypeDeclaration(declaredType))
  }

  /**
    * A union declaration gives one variant per member, in order, and is refused as soon as
    * one member is not a table, a field or a name.
    */
  lemma UnionDeclVariants(scope: TypeScope, members: seq<Type>)
    ensures DeclVariants(scope, UnionType(members)).Ok? ==>
      |DeclVariants(scope, UnionType(members)).value| == |members|
      && forall i :: 0 <= i < |members| ==>
           DeclVariants(scope, UnionType(members)).value[i] == UnionMemberVariant(scope, members[i]).value
    ensures (exists i :: 0 <= i < |members| && !(members[i].TableType? || members[i].TypeField? || members[i].TypeName?))
      ==> DeclVariants(scope, UnionType(members)).Err?
  {
    var f := UnionMemberVariantFn(scope);
    if exists i :: 0 <= i < |members| && !(members[i].TableType? || members[i].TypeField? || members[i].TypeName?) {
      var i :| 0 <= i < |members| && !(members[i].TableType? || members[i].TypeField? || members[i].TypeName?);
      assert f(members[i]).Err?;
    }
  }

  // ---- the context and `process_block` ----

  /** The canonical path of a required file, from the main module's path, the working directory and the file name. */
  type Locator = (string, Option<string>, string) -> string

  /** The top-level block of the file at a path, as read and parsed. */
  type ModuleReader = string -> Block

  /** `Context`, less the source text that comments are read from. */
  datatype Context = Context(
    errors: seq<ExtractError>,
    params: seq<ParamVariant>,
    mainFunction: Option<FunctionDecl>,
    modules: map<string, ModuleEnum>,
    nameToModulePath: map<string, string>,
    mainModuleTypes: map<string, TypeDeclaration>,
    mainModulePath: string,
    currentModulePath: string,
    cwd: Option<string>)

  /** `ParamExtractorVisitor::new(cwd)` with the main module's path filled in, as `extract_params` does. */
  function NewContext(cwd: Option<string>, mainModulePath: string): Context
  {
    Context([], [], None, map[], map[], map[], mainModulePath, "", cwd)
  }

  /** No module has been loaded yet and the main module is current: what the collection phase leaves. */
  predicate Fresh(c: Context)
  {
    c.currentModulePath == "" && forall path :: path in c.modules ==> c.modules[path].NotYetResolved?
  }

  /** The current module is the main module or one that has been loaded; otherwise lookups panic. */
  predicate CurrentModuleResolved(c: Context)
  {
    c.currentModulePath != "" && c.currentModulePath in c.modules ==> c.modules[c.currentModulePath].Resolved?
  }

  /** The scope `get_type_decl_for_name` searches, given the current module path. */
  function ScopeOf(c: Context): (scope: TypeScope)
    requires CurrentModuleResolved(c)
    ensures c.currentModulePath == "" ==> scope == MainModule(c.mainModuleTypes)
  {
    if c.currentModulePath == "" then MainModule(c.mainModuleTypes)
    else if c.currentModulePath !in c.modules then RequiredModule(c.currentModulePath, None)
    else RequiredModule(c.currentModulePath, Some(c.modules[c.currentModulePath].resolvedModule.localTypes))
  }

  /**
    * The path of `local name = require("path")`: exactly one name and one value, a call
    * through the identifier `require` with a single string literal in parentheses.
    */
  function LocalRequirePath(statement: Statement): Option<(string, string)>
  {
    match statement
    case LocalAssign(variables, values) =>
      if |variables| != 1 || |values| != 1 then None
      else
        (match values[0]
         case Call(call) =>
           if call.prefix == PrefixIdentifier("require") && call.arguments.Tuple?
              && |call.arguments.values| == 1 && call.arguments.values[0].Str?
           then Some((variables[0].name, call.arguments.values[0].value))
           else None
         case _ => None)
    case _ => None
  }

  /** The file name with `.luau` appended unless it already ends with it. */
  function WithLuauExtension(file: string): (r: string)
    ensures EndsWith(r, ".luau")
    ensures EndsWith(file, ".luau") ==> r == file
    ensures !EndsWith(file, ".luau") ==> r == file + ".luau"
  {
    if EndsWith(file, ".luau") then file
    else
      assert (file + ".luau")[|file + ".luau"| - 5..] == ".luau";
      file + ".luau"
  }

  /** A `local` whose require path is followed: not an `@` alias. */
  predicate IsFollowedRequire(statement: Statement)
  {
    LocalRequirePath(statement).Some? && !StartsWith(LocalRequirePath(statement).value.1, "@")
  }

  /** One turn of `process_block`'s loop over the top-level statements. */
  function CollectStatement(c: Context, statement: Statement, locate: Locator): Context
  {
    match statement
    case LocalAssign(_, _) =>
      if !IsFollowedRequire(statement) then c
      else
        var (name, file) := LocalRequirePath(statement).value;
        var fullPath := locate(c.mainModulePath, c.cwd, WithLuauExtension(file));
        c.(modules := c.modules[fullPath := NotYetResolved],
           nameToModulePath := c.nameToModulePath[name := fullPath])
    case TypeDeclarationStatement(decl) =>
      c.(mainModuleTypes := c.mainModuleTypes[decl.name := decl])
    case FunctionStatement(name, parameters, body) =>
      if name.name == "main" then c.(mainFunction := Some(FunctionDecl(name, parameters, body))) else c
    case _ => c
  }

  /** The loop over the top-level statements, the first `|statements|` turns of it. */
  function Collect(c: Context, statements: seq<Statement>, locate: Locator): Context
    decreases |statements|
  {
    if statements == [] then c
    else CollectStatement(Collect(c, statements[..|statements| - 1], locate), statements[|statements| - 1], locate)
  }

  /** A function statement whose first name is `main` (`function main.x()` counts too). */
  predicate IsMainFunction(statement: Statement)
  {
    statement.FunctionStatement? && statement.functionName.name == "main"
  }

  /** The last top-level `main` function, searching backwards. */
  function LastMain(statements: seq<Statement>): (r: Option<FunctionDecl>)
    ensures r.Some? <==> exists i :: 0 <= i < |statements| && IsMainFunction(statements[i])
    decreases |statements|
  {
    if statements == [] then None
    else
      var last := statements[|statements| - 1];
      var before := statements[..|statements| - 1];
      assert forall i :: 0 <= i < |before| ==> before[i] == statements[i];
      if IsMainFunction(last) then Some(FunctionDecl(last.functionName, last.functionParameters, last.functionBody))
      else LastMain(before)
  }

  /**
    * Collection keeps the last top-level `main` (or what it had, when there is none), never
    * touches the errors, the parameters or the current module path, and registers modules
    * as not yet resolved.
    */
  lemma {:induction false} CollectFindsLastMain(c: Context, statements: seq<Statement>, locate: Locator)
    ensures Collect(c, statements, locate).mainFunction
      == if LastMain(statements).Some? then LastMain(statements) else c.mainFunction
    ensures Collect(c, statements, locate).errors == c.errors
    ensures Collect(c, statements, locate).params == c.params
    ensures Collect(c, statements, locate).mainModulePath == c.mainModulePath
    ensures Collect(c, statements, locate).cwd == c.cwd
    ensures Fresh(c) ==> Fresh(Collect(c, statements, locate))
    decreases |statements|
  {
    if statements != [] {
      var n := |statements|;
      var before := statements[..n - 1];
      CollectFindsLastMain(c, before, locate);
      var collected := Collect(c, before, locate);
      assert Collect(c, statements, locate) == CollectStatement(collected, statements[n - 1], locate);
      CollectStatementFrame(collected, statements[n - 1], locate);
    }
  }

  /** One turn of the collection: what it may change and what it keeps. */
  lemma CollectStatementFrame(c: Context, statement: Statement, locate: Locator)
    ensures CollectStatement(c, statement, locate).mainFunction ==
      if IsMainFunction(statement)
      then Some(FunctionDecl(statement.functionName, statement.functionParameters, statement.functionBody))
      else c.mainFunction
    ensures CollectStatement(c, statement, locate).errors == c.errors
    ensures CollectStatement(c, statement, locate).params == c.params
    ensures CollectStatement(c, statement, locate).mainModulePath == c.mainModulePath
    ensures CollectStatement(c, statement, locate).cwd == c.cwd
    ensures Fresh(c) ==> Fresh(CollectStatement(c, statement, locate))
  {
  }

  /** `resolve_type_from_extern_file`'s loop: a module's top-level type declarations by name, later ones winning. */
  function LocalTypes(statements: seq<Statement>): map<string, TypeDeclaration>
    decreases |statements|
  {
    if statements == [] then map[]
    else
      var types := LocalTypes(statements[..|statements| - 1]);
      var last := statements[|statements| - 1];
      if last.TypeDeclarationStatement? then types[last.typeDeclaration.name := last.typeDeclaration] else types
  }

  /** The first top-level type declaration with the given name (`find_map`). */
  function FindTypeDeclaration(statements: seq<Statement>, name: string): (r: Option<TypeDeclaration>)
    ensures r.Some? ==> r.value.name == name
    ensures r.None? <==> forall i :: 0 <= i < |statements| ==>
      !(statements[i].TypeDeclarationStatement? && statements[i].typeDeclaration.name == name)
    decreases |statements|
  {
    if statements == [] then None
    else if statements[0].TypeDeclarationStatement? && statements[0].typeDeclaration.name == name then
      Some(statements[0].typeDeclaration)
    else
      assert forall i :: 1 <= i < |statements| ==> statements[1..][i - 1] == statements[i];
      FindTypeDeclaration(statements[1..], name)
  }

  /**
    * `resolve_type_from_extern_file`: loads the module bound to `moduleName`, makes it the
    * current module, and resolves its declaration of `typeName` there; the new context and
    * the outcome.
    */
  function ResolveTypeFromExternFile(c: Context, moduleName: string, typeName: string, readModule: ModuleReader)
    : (Context, Result<seq<ParamVariant>, ExtractError>)
    requires Fresh(c)
  {
    if moduleName !in c.nameToModulePath then (c, Err(ModuleNotFound(moduleName)))
    else
      var path := c.nameToModulePath[moduleName];
      if path !in c.modules then (c, Err(ModuleNotInModules(moduleName)))
      else
        var statements := readModule(path).statements;
        var loadedModule := Module(LocalTypes(statements));
        var loaded := c.(currentModulePath := path, modules := c.modules[path := Resolved(loadedModule)]);
        match FindTypeDeclaration(statements, typeName)
        case None => (loaded, Err(TypeDeclarationNotFound(typeName)))
        case Some(decl) =>
          var scope := ScopeOf(loaded);
          (loaded.(currentModulePath := ""), DeclVariants(scope, decl.declaredType))
  }

  /** The error pushed onto the context. */
  function Push(c: Context, e: ExtractError): Context
  {
    c.(errors := c.errors + [e])
  }

  /** The match on the type of `main`'s first parameter. */
  function ResolveParameterType(c: Context, parameterType: Type, readModule: ModuleReader): Context
    requires Fresh(c)
  {
    match parameterType
    case TableType(table) =>
      (match TableParams(ScopeOf(c), table.entries)
       case Ok(v) => c.(params := [v])
       case Err(e) => Push(c, ErrorResolvingTypeTable(e)))
    case TypeField(moduleName, typeName) =>
      var (after, r) := ResolveTypeFromExternFile(c, moduleName, typeName, readModule);
      if r.Ok? then after.(params := r.value) else Push(after, ErrorResolvingModule(r.error))
    case TypeName(name) =>
      if !IsUserDefinedType(name) then Push(c, UserDefinedTypeNotSupported(name))
      else if name !in c.mainModuleTypes then Push(c, TypeNotFoundInMainModule(name))
      else
        (match DeclVariants(ScopeOf(c), c.mainModuleTypes[name].declaredType)
         case Ok(vs) => c.(params := vs)
         case Err(e) => Push(c, ErrorResolvingTypeDeclaration(e)))
    case _ => Push(c, UnsupportedParameterType(parameterType))
  }

  /** What `process_block` does once the statements are collected. */
  function ResolveMainFunction(c: Context, readModule: ModuleReader): Context
    requires Fresh(c)
  {
    var taken := c.(mainFunction := None);
    match c.mainFunction
    case None => Push(taken, NoMainFunction)
    case Some(main) =>
      var parameters := main.parameters;
      if |parameters| == 0 then taken
      else
        var checked := if |parameters| > 1 then Push(taken, TooManyParameters(|parameters|)) else taken;
        match parameters[0].ty
        case None => Push(checked, NoParameterType)
        case Some(parameterType) => ResolveParameterType(checked, parameterType, readModule)
  }

  /** `process_block` on the file's top-level block. */
  function ProcessBlock(c: Context, block: Block, locate: Locator, readModule: ModuleReader): Context
    requires Fresh(c)
  {
    if c.mainFunction.Some? then c
    else
      CollectFindsLastMain(c, block.statements, locate);
      ResolveMainFunction(Collect(c, block.statements, locate), readModule)
  }

  /** `extract_params` on a parsed file: the variants, or every error collected. */
  function ExtractParams(block: Block, filePath: string, cwd: Option<string>, locate: Locator, readModule: ModuleReader)
    : Result<seq<ParamVariant>, seq<ExtractError>>
  {
    var c := ProcessBlock(NewContext(cwd, filePath), block, locate, readModule);
    if c.errors != [] then Err(c.errors) else Ok(c.params)
  }

  // ---- properties of the outcome ----

  /** The collected context of a file, before `main` is looked at. */
  function Collected(block: Block, filePath: string, cwd: Option<string>, locate: Locator): Context
  {
    Collect(NewContext(cwd, filePath), block.statements, locate)
  }

  /** Without a top-level `main`, the only error is that there is none. */
  lemma MissingMainIsAnError(block: Block, filePath: string, cwd: Option<string>, locate: Locator, readModule: ModuleReader)
    requires forall i :: 0 <= i < |block.statements| ==> !IsMainFunction(block.statements[i])
    ensures ExtractParams(block, filePath, cwd, locate, readModule) == Err([NoMainFunction])
  {
    var c0 := NewContext(cwd, filePath);
    CollectFindsLastMain(c0, block.statements, locate);
    var c := Collect(c0, block.statements, locate);
    assert LastMain(block.statements).None?;
    assert c.mainFunction.None?;
    assert ProcessBlock(c0, block, locate, readModule) == ResolveMainFunction(c, readModule);
    assert ResolveMainFunction(c, readModule).errors == [NoMainFunction];
  }

  /** A `main` without parameters gives no variants and no error. */
  lemma NoParametersNoVariants(block: Block, filePath: string, cwd: Option<string>, locate: Locator, readModule: ModuleReader)
    requires LastMain(block.statements).Some? && LastMain(block.statements).value.parameters == []
    ensures ExtractParams(block, filePath, cwd, locate, readModule) == Ok([])
  {
    CollectFindsLastMain(NewContext(cwd, filePath), block.statements, locate);
  }

  /** A `main` with more than one parameter makes extraction fail, whatever the first one is. */
  lemma SeveralParametersFail(block: Block, filePath: string, cwd: Option<string>, locate: Locator, readModule: ModuleReader)
    requires LastMain(block.statements).Some? && |LastMain(block.statements).value.parameters| > 1
    ensures ExtractParams(block, filePath, cwd, locate, readModule).Err?
    ensures TooManyParameters(|LastMain(block.statements).value.parameters|)
              in ExtractParams(block, filePath, cwd, locate, readModule).error
  {
    var c := Collected(block, filePath, cwd, locate);
    CollectFindsLastMain(NewContext(cwd, filePath), block.statements, locate);
    var main := LastMain(block.statements).value;
    var checked := Push(c.(mainFunction := None), TooManyParameters(|main.parameters|));
    var after := ProcessBlock(NewContext(cwd, filePath), block, locate, readModule);
    ResolveKeepsErrors(checked, main.parameters[0].ty, readModule);
    assert checked.errors <= after.errors;
    assert checked.errors[0] == TooManyParameters(|main.parameters|);
  }

  /** Resolving the parameter type only ever appends errors. */
  lemma ResolveKeepsErrors(c: Context, ty: Option<Type>, readModule: ModuleReader)
    requires Fresh(c)
    ensures ty.None? ==> c.errors <= Push(c, NoParameterType).errors
    ensures ty.Some? ==> c.errors <= ResolveParameterType(c, ty.value, readModule).errors
  {
  }

  /** An untyped parameter makes extraction fail. */
  lemma UntypedParameterFails(block: Block, filePath: string, cwd: Option<string>, locate: Locator, readModule: ModuleReader)
    requires LastMain(block.statements).Some? && |LastMain(block.statements).value.parameters| >= 1
    requires LastMain(block.statements).value.parameters[0].ty.None?
    ensures ExtractParams(block, filePath, cwd, locate, readModule).Err?
    ensures NoParameterType in ExtractParams(block, filePath, cwd, locate, readModule).error
  {
    CollectFindsLastMain(NewContext(cwd, filePath), block.statements, locate);
  }

  /**
    * `main(params: { ... })`, alone: the table's fields are the one variant, resolved
    * against the file's own type declarations, or the table's error is the only error.
    */
  lemma TableParameterIsTheVariant(block: Block, filePath: string, cwd: Option<string>, locate: Locator,
                                   readModule: ModuleReader, table: TableTypeNode)
    requires LastMain(block.statements).Some? && |LastMain(block.statements).value.parameters| == 1
    requires LastMain(block.statements).value.parameters[0].ty == Some(TableType(table))
    ensures ExtractParams(block, filePath, cwd, locate, readModule)
      == match TableParams(MainModule(Collected(block, filePath, cwd, locate).mainModuleTypes), table.entries)
         case Ok(v) => Ok([v])
         case Err(e) => Err([ErrorResolvingTypeTable(e)])
  {
    var c0 := NewContext(cwd, filePath);
    CollectFindsLastMain(c0, block.statements, locate);
    var c := Collect(c0, block.statements, locate);
    var taken := c.(mainFunction := None);
    assert ProcessBlock(c0, block, locate, readModule) == ResolveParameterType(taken, TableType(table), readModule);
    assert ScopeOf(taken) == MainModule(c.mainModuleTypes);
    assert taken.errors == [];
    var after := ProcessBlock(c0, block, locate, readModule);
    match TableParams(MainModule(c.mainModuleTypes), table.entries)
    case Ok(v) =>
      assert after == taken.(params := [v]);
    case Err(e) =>
      assert after.errors == [ErrorResolvingTypeTable(e)];
  }

  /**
    * The bare-string call `require "path"` is never followed, although the version engine's
    * require collector accepts it.
    */
  lemma StringCallSugarIsNotFollowed(name: string, path: string)
    ensures LocalRequirePath(LocalAssign([TypedIdentifier(name, None)],
              [Call(FunctionCall(PrefixIdentifier("require"), ArgumentString(path), None))])) == None
    ensures LocalRequirePath(LocalAssign([TypedIdentifier(name, None)],
              [Call(FunctionCall(PrefixIdentifier("require"), Tuple([Str(path)]), None))])) == Some((name, path))
  {
  }
}
