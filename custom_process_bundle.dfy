// `custom_process_bundle` (src/commands/bundle/custom_process_bundle.rs): the older flow-parameter
// extractor, over full_moon's syntax tree. The pure steps are functions. `ParamVisitor`, which
// collects the top-level declarations and then resolves `main`'s parameter by updating its
// context in place, is a class whose methods are proved to compute those functions.
module CustomBundle {
  import opened Wrappers
  import opened Strings
  import ParamSchema
  import LuaAst

  type Param = ParamSchema.Param
  type ParamVariant = ParamSchema.ParamVariant

  // ---- the part of full_moon's tree the extractor reads ----

  /** The token kinds the extractor tells apart (`TokenType`); every other kind is `OtherToken`. */
  datatype TokenType =
    | Identifier(identifier: string)
    | StringLiteral(literal: string)
    | Number(text: string)
    | OtherToken(otherText: string)

  /**
    * `luau::TypeInfo`, the kinds `resolve_type_info` names, with the parts they carry, and
    * `Tuple`, which full_moon produces for a parenthesised type `(T)` and which that match
    * has no arm for.
    */
  datatype TypeInfo =
    | Array(element: TypeInfo)
    | Basic(basic: TokenType)
    | Boolean(booleanValue: bool)
    | Callback(callbackArguments: seq<TypeInfo>, returnType: TypeInfo)
    | Generic(base: TokenType, genericArguments: seq<TypeInfo>)
    | GenericPack(packName: TokenType)
    | Intersection(intersected: seq<TypeInfo>)
    | Module(moduleName: TokenType, moduleType: TypeInfo)
    | Optional(optionalBase: TypeInfo)
    | String(stringValue: string)
    | Table(fields: seq<TypeField>)
    | Tuple(tupleTypes: seq<TypeInfo>)
    | Typeof(typeofText: string)
    | Union(unionMembers: seq<TypeInfo>)
    | Variadic(variadicType: TypeInfo)
    | VariadicPack(variadicName: TokenType)

  /** `TypeFieldKey`: a name, or an index signature `[K]: V`. */
  datatype TypeFieldKey = Name(name: TokenType) | IndexSignature(indexType: TypeInfo)

  /** One `key: value` entry of a table type. */
  datatype TypeField = TypeField(key: TypeFieldKey, value: TypeInfo)

  /** `type Name = definition`. */
  datatype TypeDeclaration = TypeDeclaration(typeName: TokenType, typeDefinition: TypeInfo)

  /**
    * `function a.b:c(p1: T1, p2, ...)`: the dotted names, the parameter names, and the type
    * specifier of each parameter that has one.
    */
  datatype FunctionDeclaration =
    FunctionDeclaration(names: seq<TokenType>, parameters: seq<string>, typeSpecifiers: seq<Option<TypeInfo>>)

  /** The top-level statements the visitor distinguishes. */
  datatype Stmt =
    | FunctionStmt(func: FunctionDeclaration)
    | TypeDeclarationStmt(declaration: TypeDeclaration)
    | OtherStmt

  /** A parsed file: its top-level statements. */
  datatype Ast = Ast(stmts: seq<Stmt>)

  /** The extractor's failures, one constructor per message of the source. */
  datatype BundleError =
    | NotSimplePrimitive(token: TokenType)
    | KeyNotIdentifier(keyToken: TokenType)
    | IndexSignatureNotSupported(field: TypeField)
    | NotSimpleFieldType(fieldType: TypeInfo)
    | ExpectedTable(notTable: TypeInfo)
    | ParamsKindNotSupported(kind: string)
    | TypeNotFound(typeName: string)
    | ExpectedIdentifier(notIdentifier: TokenType)
    | NoMainFunction
    | MultipleParams
    | NoTypeAssociated
    /** Stands for the `unreachable!()` panic of `resolve_type_info`, which aborts the run. */
    | UnhandledTypeKind(unhandled: TypeInfo)

  // ---- fields ----

  /** `is_simple_primitive_type`: the identifiers `string`, `number` and `boolean`; `nil` is not one. */
  predicate IsSimplePrimitiveType(tty: TokenType)
  {
    match tty
    case Identifier(identifier) => identifier == "string" || identifier == "number" || identifier == "boolean"
    case _ => false
  }

  /**
    * `resolve_basic_type`: a primitive identifier names itself, any string literal is a
    * `string` and any number literal a `number`; every other token is refused.
    */
  function ResolveBasicType(basic: TokenType): (r: Result<string, BundleError>)
    ensures r.Ok? <==> IsSimplePrimitiveType(basic) || basic.StringLiteral? || basic.Number?
    ensures r.Ok? ==> r.value in ParamSchema.PrimitiveTypeNames
    ensures IsSimplePrimitiveType(basic) ==> r == Ok(basic.identifier)
    ensures basic.StringLiteral? ==> r == Ok("string")
    ensures basic.Number? ==> r == Ok("number")
    ensures r.Err? ==> r.error == NotSimplePrimitive(basic)
  {
    match basic
    case Identifier(identifier) =>
      if IsSimplePrimitiveType(basic) then
        TrimOfTrimmed(identifier);
        Ok(Trim(identifier))
      else Err(NotSimplePrimitive(basic))
    case StringLiteral(_) => Ok("string")
    case Number(_) => Ok("number")
    case OtherToken(_) => Err(NotSimplePrimitive(basic))
  }

  /** The parameter name of a field: its identifier key, trimmed. */
  function FieldKey(field: TypeField): (r: Result<string, BundleError>)
    ensures r.Ok? <==> field.key.Name? && field.key.name.Identifier?
  {
    match field.key
    case Name(name) =>
      if name.Identifier? then Ok(Trim(name.identifier)) else Err(KeyNotIdentifier(name))
    case IndexSignature(_) => Err(IndexSignatureNotSupported(field))
  }

  /**
    * The type string and `required` flag of a field's value, as the match on
    * `field.value()` computes them: a bare primitive is flagged NOT required and an
    * optional one required.
    */
  function FieldValueAsWritten(value: TypeInfo): Result<(string, bool), BundleError>
  {
    match value
    case Basic(basic) =>
      (match ResolveBasicType(basic)
       case Ok(ty) => Ok((ty, false))
       case Err(e) => Err(e))
    case Optional(base) =>
      if base.Basic? then
        (match ResolveBasicType(base.basic)
         case Ok(ty) => Ok((ty, true))
         case Err(e) => Err(e))
      else Err(NotSimpleFieldType(base))
    case _ => Err(NotSimpleFieldType(value))
  }

  /** As written, `{ category: string }` makes `category` optional and `{ category: string? }` required. */
  lemma RequiredFlagsInvertedAsWritten()
    ensures FieldValueAsWritten(Basic(Identifier("string"))) == Ok(("string", false))
    ensures FieldValueAsWritten(Optional(Basic(Identifier("string")))) == Ok(("string", true))
  {
    assert ResolveBasicType(Identifier("string")) == Ok("string");
  }

  /**
    * The type string and `required` flag of a field's value: a primitive token, bare or
    * optional, and the field is required exactly when it is not optional.
    */
  function FieldValue(value: TypeInfo): (r: Result<(string, bool), BundleError>)
    ensures r.Ok? <==> (value.Basic? && ResolveBasicType(value.basic).Ok?)
                       || (value.Optional? && value.optionalBase.Basic? && ResolveBasicType(value.optionalBase.basic).Ok?)
    ensures r.Ok? ==> r.value.0 in ParamSchema.PrimitiveTypeNames && r.value.1 == !value.Optional?
    ensures r.Ok? <==> FieldValueAsWritten(value).Ok?
    ensures r.Ok? ==> r.value == (FieldValueAsWritten(value).value.0, !FieldValueAsWritten(value).value.1)
    ensures r.Err? ==> r == FieldValueAsWritten(value)
  {
    match value
    case Basic(basic) =>
      (match ResolveBasicType(basic)
       case Ok(ty) => Ok((ty, true))
       case Err(e) => Err(e))
    case Optional(base) =>
      if base.Basic? then
        (match ResolveBasicType(base.basic)
         case Ok(ty) => Ok((ty, false))
         case Err(e) => Err(e))
      else Err(NotSimpleFieldType(base))
    case _ => Err(NotSimpleFieldType(value))
  }

  /**
    * On a primitive field, bare or optional, this extractor gives the same type string and
    * `required` flag as the Luau extractor's `resolve_type_table`.
    */
  lemma AgreesWithLuauExtractor(scope: ParamSchema.TypeScope, primitive: string, optional: bool)
    requires primitive in ParamSchema.PrimitiveTypeNames
    ensures var luauType := if optional then LuaAst.OptionalType(LuaAst.TypeName(primitive)) else LuaAst.TypeName(primitive);
            var fullMoonType := if optional then Optional(Basic(Identifier(primitive))) else Basic(Identifier(primitive));
            var luau := ParamSchema.FieldParam(scope, "field", None, luauType);
            var custom := FieldValue(fullMoonType);
            luau.Ok? && custom.Ok? && luau.value.ty == custom.value.0 && luau.value.required == custom.value.1
  {
    ParamSchema.SimpleTypeOfBuiltinName(scope, primitive);
    assert ResolveBasicType(Identifier(primitive)) == Ok(primitive);
    if optional {
      var luauType := LuaAst.OptionalType(LuaAst.TypeName(primitive));
      ParamSchema.SimpleTypeSeesThroughOptional(scope, luauType);
      assert ParamSchema.FieldType(scope, luauType) == Ok(primitive);
      assert ParamSchema.FieldParam(scope, "field", None, luauType)
        == Ok(ParamSchema.Param("field", ParamSchema.Description(None), primitive, false));
      assert FieldValue(Optional(Basic(Identifier(primitive)))) == Ok((primitive, false));
    } else {
      var luauType := LuaAst.TypeName(primitive);
      assert ParamSchema.FieldType(scope, luauType) == Ok(primitive);
      assert ParamSchema.FieldParam(scope, "field", None, luauType)
        == Ok(ParamSchema.Param("field", ParamSchema.Description(None), primitive, true));
      assert FieldValue(Basic(Identifier(primitive))) == Ok((primitive, true));
    }
  }

  /** One `Param` of a table type: its key, an empty description, and its value's type and flag. */
  function FieldParam(field: TypeField): (r: Result<Param, BundleError>)
    ensures FieldKey(field).Err? ==> r == Err(FieldKey(field).error)
    ensures r.Ok? <==> FieldKey(field).Ok? && FieldValue(field.value).Ok?
    ensures r.Ok? ==> r.value.name == FieldKey(field).value && r.value.description == ""
                      && r.value.ty in ParamSchema.PrimitiveTypeNames && r.value.required == !field.value.Optional?
  {
    match FieldKey(field)
    case Err(e) => Err(e)
    case Ok(name) =>
      match FieldValue(field.value)
      case Err(e) => Err(e)
      case Ok(v) => Ok(ParamSchema.Param(name, "", v.0, v.1))
  }

  /** `resolve_table`: one `Param` per field, in order, or the first failure; anything but a table is refused. */
  function TableVariant(table: TypeInfo): (r: Result<ParamVariant, BundleError>)
    ensures !table.Table? ==> r == Err(ExpectedTable(table))
  {
    match table
    case Table(fields) => ParamSchema.TryMap(fields, FieldParam)
    case _ => Err(ExpectedTable(table))
  }

  /**
    * A table type is accepted exactly when every field has an identifier key and a
    * primitive value, bare or optional; its variant has one parameter per field, in order,
    * with no description and required exactly when not optional.
    */
  lemma TableVariantShape(fields: seq<TypeField>)
    ensures TableVariant(Table(fields)).Ok? <==>
      forall i :: 0 <= i < |fields| ==> FieldKey(fields[i]).Ok? && FieldValue(fields[i].value).Ok?
    ensures TableVariant(Table(fields)).Ok? ==> |TableVariant(Table(fields)).value| == |fields|
    ensures TableVariant(Table(fields)).Ok? ==> forall i :: 0 <= i < |fields| ==>
      TableVariant(Table(fields)).value[i] ==
        ParamSchema.Param(FieldKey(fields[i]).value, "", FieldValue(fields[i].value).value.0, !fields[i].value.Optional?)
  {
    var r := TableVariant(Table(fields));
    assert r == ParamSchema.TryMap(fields, FieldParam);
    if r.Ok? {
      forall i | 0 <= i < |fields|
        ensures r.value[i] ==
          ParamSchema.Param(FieldKey(fields[i]).value, "", FieldValue(fields[i].value).value.0, !fields[i].value.Optional?)
      {
        assert r.value[i] == FieldParam(fields[i]).value;
      }
    }
  }

  // ---- the parameter's type ----

  /**
    * `resolve_type_info`: the variants of `main`'s parameter type, given the collected
    * declarations. A table gives its one variant, and so does an identifier naming a
    * declaration (which must be a table); every other kind is refused by name.
    */
  function TypeInfoVariants(allTypes: map<string, TypeDeclaration>, ty: TypeInfo): (r: Result<seq<ParamVariant>, BundleError>)
    ensures r.Ok? ==> |r.value| == 1
    ensures r.Ok? ==> ty.Table? || (ty.Basic? && ty.basic.Identifier? && ty.basic.identifier in allTypes
                                   && allTypes[ty.basic.identifier].typeDefinition.Table?)
    ensures ty.Table? ==> (r.Ok? <==> TableVariant(ty).Ok?) && (r.Ok? ==> r.value == [TableVariant(ty).value])
    ensures ty.Basic? && ty.basic.Identifier? && ty.basic.identifier !in allTypes ==> r == Err(TypeNotFound(ty.basic.identifier))
    ensures ty.Tuple? <==> r.Err? && r.error.UnhandledTypeKind?
  {
    match ty
    case Array(_) => Err(ParamsKindNotSupported("array"))
    case Basic(basic) =>
      if basic.Identifier? then
        if basic.identifier !in allTypes then Err(TypeNotFound(basic.identifier))
        else
          (match TableVariant(allTypes[basic.identifier].typeDefinition)
           case Ok(v) => Ok([v])
           case Err(e) => Err(e))
      else Err(ExpectedIdentifier(basic))
    case Boolean(_) => Err(ParamsKindNotSupported("boolean"))
    case Callback(_, _) => Err(ParamsKindNotSupported("callback"))
    case Generic(_, _) => Err(ParamsKindNotSupported("generic"))
    case GenericPack(_) => Err(ParamsKindNotSupported("generic pack"))
    case Intersection(_) => Err(ParamsKindNotSupported("intersection - NOT YET IMPLEMENTED"))
    case Module(_, _) => Err(ParamsKindNotSupported("module"))
    case Optional(_) => Err(ParamsKindNotSupported("optional"))
    case String(_) => Err(ParamsKindNotSupported("string"))
    case Table(_) =>
      (match TableVariant(ty)
       case Ok(v) => Ok([v])
       case Err(e) => Err(e))
    case Tuple(_) => Err(UnhandledTypeKind(ty))
    case Typeof(_) => Err(ParamsKindNotSupported("typeof"))
    case Union(_) => Err(ParamsKindNotSupported("union - NOT YET IMPLEMENTED"))
    case Variadic(_) => Err(ParamsKindNotSupported("variadic"))
    case VariadicPack(_) => Err(ParamsKindNotSupported("variadic pack"))
  }

  // ---- the visitor's context ----

  /** `Context`, less the flow path that only appears in messages. */
  datatype VisitState = VisitState(
    paramVariants: seq<ParamVariant>,
    mainFunc: Option<FunctionDeclaration>,
    errors: seq<BundleError>,
    allTypes: map<string, TypeDeclaration>)

  /** The context `custom_process_bundle` starts from. */
  const EmptyState := VisitState([], None, [], map[])

  /** A function declaration whose first name is an identifier that trims to `main`. */
  predicate IsMainDeclaration(stmt: Stmt)
  {
    stmt.FunctionStmt? && |stmt.func.names| > 0 && IsMainName(stmt.func.names[0])
  }

  /** An identifier token that trims to `main`. */
  predicate IsMainName(name: TokenType)
  {
    name.Identifier? && Trim(name.identifier) == "main"
  }

  /** A type declaration under the identifier `name`. */
  predicate Declares(stmt: Stmt, name: string)
  {
    stmt.TypeDeclarationStmt? && stmt.declaration.typeName == Identifier(name)
  }

  /** One turn of `visit_ast`'s loop over the top-level statements. */
  function CollectStmt(s: VisitState, stmt: Stmt): VisitState
  {
    match stmt
    case FunctionStmt(func) => if IsMainDeclaration(stmt) then s.(mainFunc := Some(func)) else s
    case TypeDeclarationStmt(declaration) =>
      if declaration.typeName.Identifier?
      then s.(allTypes := s.allTypes[declaration.typeName.identifier := declaration])
      else s
    case OtherStmt => s
  }

  /** The first `|stmts|` turns of the loop. */
  function CollectAll(s: VisitState, stmts: seq<Stmt>): VisitState
    decreases |stmts|
  {
    if stmts == [] then s
    else CollectStmt(CollectAll(s, stmts[..|stmts| - 1]), stmts[|stmts| - 1])
  }

  /** The last element of `xs` that satisfies `p`, searching backwards. */
  function LastWhere<T>(xs: seq<T>, p: T -> bool): (r: Option<T>)
    ensures r.Some? <==> exists i :: 0 <= i < |xs| && p(xs[i])
    ensures r.Some? ==> p(r.value)
    decreases |xs|
  {
    if xs == [] then None
    else
      var before := xs[..|xs| - 1];
      assert forall i :: 0 <= i < |before| ==> before[i] == xs[i];
      if p(xs[|xs| - 1]) then Some(xs[|xs| - 1]) else LastWhere(before, p)
  }

  /** The element found satisfies `p`, at index `i`, and no later element does. */
  lemma {:induction false} LastWhereIsLast<T>(xs: seq<T>, p: T -> bool) returns (i: nat)
    requires LastWhere(xs, p).Some?
    ensures i < |xs| && p(xs[i]) && xs[i] == LastWhere(xs, p).value
    ensures forall j :: i < j < |xs| ==> !p(xs[j])
    decreases |xs|
  {
    var n := |xs|;
    if p(xs[n - 1]) {
      i := n - 1;
    } else {
      var before := xs[..n - 1];
      i := LastWhereIsLast(before, p);
      assert forall j :: i <= j < n - 1 ==> xs[j] == before[j];
    }
  }

  /** The last `main` declaration of the file. */
  function LastMainDeclaration(stmts: seq<Stmt>): (r: Option<FunctionDeclaration>)
    ensures r.Some? <==> exists i :: 0 <= i < |stmts| && IsMainDeclaration(stmts[i])
  {
    match LastWhere(stmts, IsMainDeclaration)
    case Some(stmt) => Some(stmt.func)
    case None => None
  }

  /**
    * The declaration found belongs to a `main` declaration at index `i` that no later
    * statement follows: the last one wins.
    */
  lemma LastMainDeclarationIsLast(stmts: seq<Stmt>) returns (i: nat)
    requires LastMainDeclaration(stmts).Some?
    ensures i < |stmts| && IsMainDeclaration(stmts[i]) && stmts[i].func == LastMainDeclaration(stmts).value
    ensures forall j :: i < j < |stmts| ==> !IsMainDeclaration(stmts[j])
  {
    i := LastWhereIsLast(stmts, IsMainDeclaration);
  }

  /**
    * Collection keeps the last `main` declaration (or the one it had, when there is none)
    * and leaves the variants and the errors alone.
    */
  lemma {:induction false} CollectKeepsLastMain(s: VisitState, stmts: seq<Stmt>)
    ensures CollectAll(s, stmts).mainFunc
      == if LastMainDeclaration(stmts).Some? then LastMainDeclaration(stmts) else s.mainFunc
    ensures CollectAll(s, stmts).errors == s.errors
    ensures CollectAll(s, stmts).paramVariants == s.paramVariants
    decreases |stmts|
  {
    if stmts != [] {
      CollectKeepsLastMain(s, stmts[..|stmts| - 1]);
    }
  }

  /** A type declaration is what its name maps to after collection, unless a later one reuses the name. */
  lemma {:induction false} LaterDeclarationWins(s: VisitState, stmts: seq<Stmt>, i: nat, name: string)
    requires i < |stmts| && Declares(stmts[i], name)
    requires forall j :: i < j < |stmts| ==> !Declares(stmts[j], name)
    ensures name in CollectAll(s, stmts).allTypes
    ensures CollectAll(s, stmts).allTypes[name] == stmts[i].declaration
    decreases |stmts|
  {
    var n := |stmts|;
    var before := stmts[..n - 1];
    if i < n - 1 {
      assert stmts[i] == before[i];
      LaterDeclarationWins(s, before, i, name);
      assert !Declares(stmts[n - 1], name);
    }
  }

  /** A name no statement declares keeps whatever it mapped to before. */
  lemma {:induction false} UndeclaredNameKept(s: VisitState, stmts: seq<Stmt>, name: string)
    requires forall j :: 0 <= j < |stmts| ==> !Declares(stmts[j], name)
    ensures (name in CollectAll(s, stmts).allTypes) == (name in s.allTypes)
    ensures name in s.allTypes ==> CollectAll(s, stmts).allTypes[name] == s.allTypes[name]
    decreases |stmts|
  {
    if stmts != [] {
      var before := stmts[..|stmts| - 1];
      assert forall j :: 0 <= j < |before| ==> before[j] == stmts[j];
      UndeclaredNameKept(s, before, name);
    }
  }

  /** `resolve_main_function`: takes `main` out of the context and resolves its parameter's type. */
  function ResolvedMain(s: VisitState): VisitState
  {
    var taken := s.(mainFunc := None);
    match s.mainFunc
    case None => taken.(errors := taken.errors + [NoMainFunction])
    case Some(func) =>
      if |func.parameters| == 0 then taken
      else
        var checked := if |func.parameters| > 1 then taken.(errors := taken.errors + [MultipleParams]) else taken;
        if |func.typeSpecifiers| > 0 && func.typeSpecifiers[0].Some? then
          match TypeInfoVariants(checked.allTypes, func.typeSpecifiers[0].value)
          case Ok(vs) => checked.(paramVariants := vs)
          case Err(e) => checked.(errors := checked.errors + [e])
        else checked.(errors := checked.errors + [NoTypeAssociated])
  }

  /** `visit_ast`: collect, then resolve `main`. */
  function Visited(s: VisitState, ast: Ast): VisitState
  {
    ResolvedMain(CollectAll(s, ast.stmts))
  }

  /**
    * What `custom_process_bundle` leaves in `flow.params` for a parsed file: the errors
    * when there are any, otherwise the variants when there are some and `None` when there
    * are none.
    */
  function Outcome(ast: Ast): (r: Result<Option<seq<ParamVariant>>, seq<BundleError>>)
    ensures r.Err? ==> r.error != []
    ensures r.Ok? && r.value.Some? ==> r.value.value != []
  {
    var s := Visited(EmptyState, ast);
    if s.errors != [] then Err(s.errors)
    else if s.paramVariants != [] then Ok(Some(s.paramVariants))
    else Ok(None)
  }

  // ---- outcomes ----

  /** A file without a `main` function fails with that error alone. */
  lemma MissingMainFails(ast: Ast)
    requires forall i :: 0 <= i < |ast.stmts| ==> !IsMainDeclaration(ast.stmts[i])
    ensures Outcome(ast) == Err([NoMainFunction])
  {
    CollectKeepsLastMain(EmptyState, ast.stmts);
    var collected := CollectAll(EmptyState, ast.stmts);
    assert LastMainDeclaration(ast.stmts).None?;
    assert collected.mainFunc.None? && collected.errors == [];
    assert Visited(EmptyState, ast).errors == [NoMainFunction];
  }

  /** The context once `main` is found among the statements, before it is resolved. */
  lemma CollectedMain(ast: Ast) returns (collected: VisitState, main: FunctionDeclaration)
    requires LastMainDeclaration(ast.stmts).Some?
    ensures collected == CollectAll(EmptyState, ast.stmts) && Visited(EmptyState, ast) == ResolvedMain(collected)
    ensures main == LastMainDeclaration(ast.stmts).value && collected.mainFunc == Some(main)
    ensures collected.errors == [] && collected.paramVariants == []
  {
    CollectKeepsLastMain(EmptyState, ast.stmts);
    collected := CollectAll(EmptyState, ast.stmts);
    main := LastMainDeclaration(ast.stmts).value;
  }

  /** A `main` without parameters leaves `flow.params` empty. */
  lemma NoParametersNoParams(ast: Ast)
    requires LastMainDeclaration(ast.stmts).Some?
    requires |LastMainDeclaration(ast.stmts).value.parameters| == 0
    ensures Outcome(ast) == Ok(None)
  {
    var collected, main := CollectedMain(ast);
    assert Visited(EmptyState, ast) == collected.(mainFunc := None);
  }

  /** A `main` with several parameters fails, whatever its first parameter's type. */
  lemma SeveralParametersFail(ast: Ast)
    requires LastMainDeclaration(ast.stmts).Some?
    requires |LastMainDeclaration(ast.stmts).value.parameters| > 1
    ensures Outcome(ast).Err? && Outcome(ast).error[0] == MultipleParams
  {
    var collected, main := CollectedMain(ast);
    SeveralParametersFlagged(collected);
  }

  /** Resolving a `main` with several parameters records that error first. */
  lemma SeveralParametersFlagged(s: VisitState)
    requires s.mainFunc.Some? && |s.mainFunc.value.parameters| > 1 && s.errors == []
    ensures ResolvedMain(s).errors != [] && ResolvedMain(s).errors[0] == MultipleParams
  {
    var main := s.mainFunc.value;
    var checked := s.(mainFunc := None, errors := [MultipleParams]);
    if |main.typeSpecifiers| > 0 && main.typeSpecifiers[0].Some? {
      var resolved := TypeInfoVariants(checked.allTypes, main.typeSpecifiers[0].value);
      assert ResolvedMain(s) == if resolved.Ok? then checked.(paramVariants := resolved.value)
                                else checked.(errors := checked.errors + [resolved.error]);
    } else {
      assert ResolvedMain(s) == checked.(errors := checked.errors + [NoTypeAssociated]);
    }
  }

  /** A parameter without a type specifier fails. */
  lemma UntypedParameterFails(ast: Ast)
    requires LastMainDeclaration(ast.stmts).Some?
    requires |LastMainDeclaration(ast.stmts).value.parameters| >= 1
    requires var specifiers := LastMainDeclaration(ast.stmts).value.typeSpecifiers;
             |specifiers| == 0 || specifiers[0].None?
    ensures Outcome(ast).Err? && Outcome(ast).error[|Outcome(ast).error| - 1] == NoTypeAssociated
  {
    var collected, main := CollectedMain(ast);
    UntypedParameterFlagged(collected);
  }

  /** Resolving a `main` whose first parameter has no type records that error last. */
  lemma UntypedParameterFlagged(s: VisitState)
    requires s.mainFunc.Some? && |s.mainFunc.value.parameters| >= 1
    requires |s.mainFunc.value.typeSpecifiers| == 0 || s.mainFunc.value.typeSpecifiers[0].None?
    ensures ResolvedMain(s).errors != [] && ResolvedMain(s).errors[|ResolvedMain(s).errors| - 1] == NoTypeAssociated
  {
    var main := s.mainFunc.value;
    var checked := if |main.parameters| > 1 then s.(mainFunc := None, errors := s.errors + [MultipleParams])
                   else s.(mainFunc := None);
    assert ResolvedMain(s) == checked.(errors := checked.errors + [NoTypeAssociated]);
  }

  /**
    * A single parameter typed by a table literal gives exactly that table's variant, or
    * fails with the table's error.
    */
  lemma TableParameterOutcome(ast: Ast, fields: seq<TypeField>)
    requires LastMainDeclaration(ast.stmts).Some?
    requires |LastMainDeclaration(ast.stmts).value.parameters| == 1
    requires var specifiers := LastMainDeclaration(ast.stmts).value.typeSpecifiers;
             |specifiers| > 0 && specifiers[0] == Some(Table(fields))
    ensures TableVariant(Table(fields)).Ok? ==> Outcome(ast) == Ok(Some([TableVariant(Table(fields)).value]))
    ensures TableVariant(Table(fields)).Err? ==> Outcome(ast) == Err([TableVariant(Table(fields)).error])
  {
    var collected, main := CollectedMain(ast);
    var taken := collected.(mainFunc := None);
    var resolved := TypeInfoVariants(taken.allTypes, Table(fields));
    assert Visited(EmptyState, ast) == if resolved.Ok? then taken.(paramVariants := resolved.value)
                                       else taken.(errors := [resolved.error]);
  }

  /**
    * A single parameter typed `(T)` reaches the `unreachable!()` arm of `resolve_type_info`:
    * the source panics there, and the model reports it as that error alone.
    */
  lemma ParenthesisedParameterAborts(ast: Ast, inner: seq<TypeInfo>)
    requires LastMainDeclaration(ast.stmts).Some?
    requires |LastMainDeclaration(ast.stmts).value.parameters| == 1
    requires var specifiers := LastMainDeclaration(ast.stmts).value.typeSpecifiers;
             |specifiers| > 0 && specifiers[0] == Some(Tuple(inner))
    ensures Outcome(ast) == Err([UnhandledTypeKind(Tuple(inner))])
  {
    var collected, main := CollectedMain(ast);
    ParenthesisedParameterFlagged(collected, inner);
  }

  /** Resolving a single `(T)` parameter records that error alone. */
  lemma ParenthesisedParameterFlagged(s: VisitState, inner: seq<TypeInfo>)
    requires s.mainFunc.Some? && |s.mainFunc.value.parameters| == 1 && s.errors == []
    requires |s.mainFunc.value.typeSpecifiers| > 0 && s.mainFunc.value.typeSpecifiers[0] == Some(Tuple(inner))
    ensures ResolvedMain(s).errors == [UnhandledTypeKind(Tuple(inner))]
  {
    var taken := s.(mainFunc := None);
    assert TypeInfoVariants(taken.allTypes, Tuple(inner)) == Err(UnhandledTypeKind(Tuple(inner)));
  }

  // ---- the visitor ----

  /** `ParamVisitor` together with the `Context` it updates. */
  class ParamVisitor {
    var paramVariants: seq<ParamVariant>
    var mainFunc: Option<FunctionDeclaration>
    var errors: seq<BundleError>
    var allTypes: map<string, TypeDeclaration>

    /** The context fields as a value. */
    function State(): VisitState
      reads this
    {
      VisitState(paramVariants, mainFunc, errors, allTypes)
    }

    /** `ParamVisitor::new` over the empty context `custom_process_bundle` builds. */
    constructor ()
      ensures State() == EmptyState
    {
      paramVariants := [];
      mainFunc := None;
      errors := [];
      allTypes := map[];
    }

    /** `resolve_table`: one `Param` pushed per field. */
    method ResolveTable(table: TypeInfo) returns (r: Result<ParamVariant, BundleError>)
      ensures r == TableVariant(table)
    {
      if !table.Table? {
        return Err(ExpectedTable(table));
      }
      var fields := table.fields;
      var paramVariant: ParamVariant := [];
      ParamSchema.TryMapStart(fields, FieldParam);
      var i := 0;
      while i < |fields|
        invariant 0 <= i <= |fields|
        invariant TableVariant(table) == ParamSchema.PrependOk(paramVariant, ParamSchema.TryMap(fields[i..], FieldParam))
      {
        ParamSchema.TryMapStep(fields, FieldParam, i, paramVariant);
        var param := ResolveField(fields[i]);
        if param.Err? {
          return Err(param.error);
        }
        paramVariant := paramVariant + [param.value];
        i := i + 1;
      }
      ParamSchema.TryMapFinish(fields, FieldParam, paramVariant);
      return Ok(paramVariant);
    }

    /** One turn of `resolve_table`'s loop: the `Param` of one field. */
    method ResolveField(field: TypeField) returns (r: Result<Param, BundleError>)
      ensures r == FieldParam(field)
    {
      var key: string;
      match field.key {
        case Name(name) =>
          if !name.Identifier? {
            return Err(KeyNotIdentifier(name));
          }
          key := Trim(name.identifier);
        case IndexSignature(_) =>
          return Err(IndexSignatureNotSupported(field));
      }
      var value: string, required: bool;
      match field.value {
        case Basic(basic) =>
          var ty := ResolveBasicType(basic);
          if ty.Err? {
            return Err(ty.error);
          }
          value, required := ty.value, true;
        case Optional(base) =>
          if !base.Basic? {
            return Err(NotSimpleFieldType(base));
          }
          var ty := ResolveBasicType(base.basic);
          if ty.Err? {
            return Err(ty.error);
          }
          value, required := ty.value, false;
        case _ =>
          return Err(NotSimpleFieldType(field.value));
      }
      r := Ok(ParamSchema.Param(key, "", value, required));
    }

    /** `resolve_type_info` over the collected declarations. */
    method ResolveTypeInfo(ty: TypeInfo) returns (r: Result<seq<ParamVariant>, BundleError>)
      ensures r == TypeInfoVariants(allTypes, ty)
    {
      match ty
      case Basic(basic) =>
        if !basic.Identifier? {
          return Err(ExpectedIdentifier(basic));
        }
        if basic.identifier !in allTypes {
          return Err(TypeNotFound(basic.identifier));
        }
        var variant := ResolveTable(allTypes[basic.identifier].typeDefinition);
        if variant.Err? {
          return Err(variant.error);
        }
        r := Ok([variant.value]);
      case Table(_) =>
        var variant := ResolveTable(ty);
        if variant.Err? {
          return Err(variant.error);
        }
        r := Ok([variant.value]);
      case _ =>
        r := TypeInfoVariants(allTypes, ty);
    }

    /** `resolve_main_function`: takes `main` and resolves the type of its first parameter. */
    method ResolveMainFunction()
      modifies this
      ensures State() == ResolvedMain(old(State()))
    {
      var func := mainFunc;
      mainFunc := None;
      if func.None? {
        errors := errors + [NoMainFunction];
        return;
      }
      var noOfParams := |func.value.parameters|;
      if noOfParams == 0 {
        return;
      }
      if noOfParams > 1 {
        errors := errors + [MultipleParams];
      }
      var specifiers := func.value.typeSpecifiers;
      if |specifiers| > 0 && specifiers[0].Some? {
        var resolved := ResolveTypeInfo(specifiers[0].value);
        if resolved.Ok? {
          paramVariants := resolved.value;
        } else {
          errors := errors + [resolved.error];
        }
      } else {
        errors := errors + [NoTypeAssociated];
      }
    }

    /** `visit_ast`: the loop over the top-level statements, then `resolve_main_function`. */
    method VisitAst(ast: Ast)
      modifies this
      ensures State() == Visited(old(State()), ast)
    {
      var stmts := ast.stmts;
      var i := 0;
      while i < |stmts|
        invariant 0 <= i <= |stmts|
        invariant State() == CollectAll(old(State()), stmts[..i])
      {
        match stmts[i] {
          case FunctionStmt(func) =>
            if |func.names| > 0 && func.names[0].Identifier? && Trim(func.names[0].identifier) == "main" {
              mainFunc := Some(func);
            }
          case TypeDeclarationStmt(declaration) =>
            if declaration.typeName.Identifier? {
              allTypes := allTypes[declaration.typeName.identifier := declaration];
            }
          case OtherStmt =>
        }
        assert stmts[..i + 1][..i] == stmts[..i];
        i := i + 1;
      }
      assert stmts[..i] == stmts;
      ResolveMainFunction();
    }
  }

  /** `custom_process_bundle` on a parsed flow file: the new `flow.params`, or the errors. */
  method CustomProcessBundle(ast: Ast) returns (r: Result<Option<seq<ParamVariant>>, seq<BundleError>>)
    ensures r == Outcome(ast)
  {
    var visitor := new ParamVisitor();
    visitor.VisitAst(ast);
    if |visitor.errors| > 0 {
      return Err(visitor.errors);
    }
    if |visitor.paramVariants| > 0 {
      return Ok(Some(visitor.paramVariants));
    }
    return Ok(None);
  }
}
