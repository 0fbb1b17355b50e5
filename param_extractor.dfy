// `ParamExtractorVisitor` (src/commands/bundle/param_extractor.rs) as an object whose context
// fields `process_block` and `resolve_type_from_extern_file` update in place, with the
// resolvers as methods that build their lists in loops. Every method is proved to compute the
// corresponding function of module ParamSchema.
module ParamExtraction {
  import opened Wrappers
  import opened Strings
  import opened LuaAst
  import opened ParamSchema

  /** The loop that renders a union member by member, followed by `tys.join(" | ")`. */
  method RenderUnionMembers(context: UnionContext, members: seq<Type>) returns (r: Result<string, ExtractError>)
    ensures r == RenderUnion(context, members)
  {
    var tys: seq<string> := [];
    TryMapStart(members, RenderMemberFn(context));
    var i := 0;
    while i < |members|
      invariant 0 <= i <= |members|
      invariant TryMap(members, RenderMemberFn(context)) == PrependOk(tys, TryMap(members[i..], RenderMemberFn(context)))
    {
      TryMapStep(members, RenderMemberFn(context), i, tys);
      var rendered := RenderMember(context, members[i]);
      if rendered.Err? {
        return Err(rendered.error);
      }
      tys := tys + [rendered.value];
      i := i + 1;
    }
    TryMapFinish(members, RenderMemberFn(context), tys);
    return Ok(Join(tys, " | "));
  }

  class ParamExtractorVisitor {
    const cwd: Option<string>
    var errors: seq<ExtractError>
    var params: seq<ParamVariant>
    var mainFunction: Option<FunctionDecl>
    var modules: map<string, ModuleEnum>
    var nameToModulePath: map<string, string>
    var mainModuleTypes: map<string, TypeDeclaration>
    var mainModulePath: string
    var currentModulePath: string

    /** The context fields as a value. */
    function State(): Context
      reads this
    {
      Context(errors, params, mainFunction, modules, nameToModulePath, mainModuleTypes,
              mainModulePath, currentModulePath, cwd)
    }

    /** `ParamExtractorVisitor::new`: an empty context in the main module. */
    constructor (cwd: Option<string>)
      ensures State() == NewContext(cwd, "")
    {
      this.cwd := cwd;
      errors := [];
      params := [];
      mainFunction := None;
      modules := map[];
      nameToModulePath := map[];
      mainModuleTypes := map[];
      mainModulePath := "";
      currentModulePath := "";
    }

    /** Where `get_type_decl_for_name` looks, given the current module path. */
    function Scope(): TypeScope
      reads this
      requires CurrentModuleResolved(State())
    {
      ScopeOf(State())
    }

    /** `resolve_simple_type` */
    method ResolveSimpleType(ty: Type) returns (r: Result<string, ExtractError>)
      requires CurrentModuleResolved(State())
      ensures r == SimpleType(Scope(), ty)
      decreases ty
    {
      match ty
      case FalseType =>
        r := Ok("false");
      case TypeName(name) =>
        if name == "string" || name == "number" || name == "boolean" {
          r := Ok(name);
        } else if !IsUserDefinedType(name) {
          r := Err(UnsupportedPrimitiveType(name));
        } else {
          var declaration := GetTypeDeclForName(Scope(), name);
          if declaration.Err? {
            return Err(declaration.error);
          }
          var declaredType := declaration.value.declaredType;
          if declaredType.UnionType? {
            r := RenderUnionMembers(DeclaredStringUnion(declaredType), declaredType.types);
          } else {
            r := Err(UnsupportedTypeDeclaration(declaredType));
          }
        }
      case StringType(s) =>
        r := Ok(Quote(s));
      case TrueType =>
        r := Ok("true");
      case OptionalType(inner) =>
        r := ResolveSimpleType(inner);
      case _ =>
        r := Err(UnsupportedSimpleType(ty));
    }

    /** `resolve_simple_union_type` */
    method ResolveSimpleUnionType(ty: Type) returns (r: Result<string, ExtractError>)
      ensures r == SimpleUnionType(ty)
    {
      if ty.UnionType? {
        r := RenderUnionMembers(SimpleUnion, ty.types);
      } else {
        r := Err(ExpectedUnionType(ty));
      }
    }

    /** `resolve_union_type` */
    method ResolveUnionType(ty: Type) returns (r: Result<string, ExtractError>)
      ensures r == FieldUnionType(ty)
    {
      if ty.UnionType? {
        r := RenderUnionMembers(FieldUnion, ty.types);
      } else {
        r := Err(ExpectedUnionType(ty));
      }
    }

    /**
      * The type string of one table field, with the array and parenthesised arms resolving
      * the element and inner type.
      */
    method ResolveFieldType(value: Type) returns (r: Result<string, ExtractError>)
      requires CurrentModuleResolved(State())
      ensures r == FieldType(Scope(), value)
    {
      match value
      case ArrayType(element) =>
        var ty: Result<string, ExtractError>;
        if IsSimpleShape(element) {
          ty := ResolveSimpleType(element);
        } else if element.UnionType? {
          ty := ResolveSimpleUnionType(element);
        } else {
          ty := Err(UnsupportedArrayType(element));
        }
        if ty.Err? {
          return ty;
        }
        r := Ok("Vec<" + ty.value + ">");
      case FalseType =>
        r := ResolveSimpleType(value);
      case TypeName(_) =>
        r := ResolveSimpleType(value);
      case StringType(_) =>
        r := ResolveSimpleType(value);
      case TrueType =>
        r := ResolveSimpleType(value);
      case TypeField(_, _) =>
        r := Err(FieldTypeNotSupported);
      case FunctionType =>
        r := Err(FunctionTypeNotSupported);
      case IntersectionType(_) =>
        r := Err(IntersectionTypeNotSupported);
      case NilType =>
        r := Err(NilTypeNotSupported);
      case OptionalType(inner) =>
        if IsSimpleShape(inner) {
          r := ResolveSimpleType(value);
        } else if inner.UnionType? {
          r := ResolveUnionType(value);
        } else if inner.ParentheseType? {
          if inner.innerType.UnionType? {
            r := ResolveUnionType(inner.innerType);
          } else {
            r := Err(UnsupportedOptionalInParenthese(inner.innerType));
          }
        } else {
          r := Err(UnsupportedOptionalType(inner));
        }
      case ParentheseType(inner) =>
        var ty: Result<string, ExtractError>;
        if IsSimpleShape(inner) {
          ty := ResolveSimpleType(inner);
        } else if inner.UnionType? {
          ty := ResolveUnionType(inner);
        } else {
          ty := Err(UnsupportedParentheseType(value));
        }
        if ty.Err? {
          return ty;
        }
        r := Ok("(" + ty.value + ")");
      case TableType(_) =>
        r := Err(TableTypeNotSupported);
      case TypeOfType =>
        r := Err(TypeOfNotSupported);
      case UnionType(_) =>
        r := ResolveUnionType(value);
    }

    /** `resolve_type_table`: one `Param` pushed per entry. */
    method ResolveTypeTable(table: TableTypeNode) returns (r: Result<ParamVariant, ExtractError>)
      requires CurrentModuleResolved(State())
      ensures r == TableParams(Scope(), table.entries)
    {
      var entries := table.entries;
      var variant: ParamVariant := [];
      TryMapStart(entries, ParamOfFn(Scope()));
      var i := 0;
      while i < |entries|
        invariant 0 <= i <= |entries|
        invariant TableParams(Scope(), entries) == PrependOk(variant, TryMap(entries[i..], ParamOfFn(Scope())))
      {
        TryMapStep(entries, ParamOfFn(Scope()), i, variant);
        var entry := entries[i];
        var name: string, token: Option<Token>, value: Type;
        match entry {
          case PropertyEntry(propertyName, propertyToken, propertyType) =>
            name, token, value := propertyName, propertyToken, propertyType;
          case LiteralEntry(literal, literalToken, literalType) =>
            name, token, value := literal, literalToken, literalType;
          case IndexerEntry(_, _) =>
            return Err(ExpectedProperty(entry));
        }
        var ty := ResolveFieldType(value);
        if ty.Err? {
          return Err(ty.error);
        }
        variant := variant + [Param(name, Description(token), ty.value, !value.OptionalType?)];
        i := i + 1;
      }
      TryMapFinish(entries, ParamOfFn(Scope()), variant);
      return Ok(variant);
    }

    /** `resolve_type_decl_for_param_variant` */
    method ResolveTypeDeclForParamVariant(ty: Type) returns (r: Result<ParamVariant, ExtractError>)
      requires CurrentModuleResolved(State())
      ensures r == VariantOf(Scope(), ty)
    {
      match ty
      case TableType(table) =>
        r := ResolveTypeTable(table);
      case TypeField(_, _) =>
        r := Err(ExternalFieldTypeNotSupported);
      case TypeName(name) =>
        var declaration := GetTypeDeclForName(Scope(), name);
        if declaration.Err? {
          return Err(declaration.error);
        }
        var declaredType := declaration.value.declaredType;
        if declaredType.TableType? {
          r := ResolveTypeTable(declaredType.table);
        } else {
          r := Err(UnsupportedTypeDeclaration(declaredType));
        }
      case _ =>
        r := Err(UnsupportedTypeDeclaration(ty));
    }

    /** The loop of `resolve_params_type_decl` over the union a field's type name is declared as. */
    method ResolveEachVariant(members: seq<Type>) returns (r: Result<seq<ParamVariant>, ExtractError>)
      requires CurrentModuleResolved(State())
      ensures r == TryMap(members, VariantOfFn(Scope()))
    {
      var variants: seq<ParamVariant> := [];
      TryMapStart(members, VariantOfFn(Scope()));
      var i := 0;
      while i < |members|
        invariant 0 <= i <= |members|
        invariant TryMap(members, VariantOfFn(Scope())) == PrependOk(variants, TryMap(members[i..], VariantOfFn(Scope())))
      {
        TryMapStep(members, VariantOfFn(Scope()), i, variants);
        var variant := ResolveTypeDeclForParamVariant(members[i]);
        if variant.Err? {
          return Err(variant.error);
        }
        variants := variants + [variant.value];
        i := i + 1;
      }
      TryMapFinish(members, VariantOfFn(Scope()), variants);
      return Ok(variants);
    }

    /** The loop of `resolve_params_type_decl` over the members of a `type Params = A | B` union. */
    method ResolveUnionVariants(members: seq<Type>) returns (r: Result<seq<ParamVariant>, ExtractError>)
      requires CurrentModuleResolved(State())
      ensures r == TryMap(members, UnionMemberVariantFn(Scope()))
    {
      var variants: seq<ParamVariant> := [];
      TryMapStart(members, UnionMemberVariantFn(Scope()));
      var i := 0;
      while i < |members|
        invariant 0 <= i <= |members|
        invariant TryMap(members, UnionMemberVariantFn(Scope()))
          == PrependOk(variants, TryMap(members[i..], UnionMemberVariantFn(Scope())))
      {
        TryMapStep(members, UnionMemberVariantFn(Scope()), i, variants);
        var variant := ResolveUnionMember(members[i]);
        if variant.Err? {
          return Err(variant.error);
        }
        variants := variants + [variant.value];
        i := i + 1;
      }
      TryMapFinish(members, UnionMemberVariantFn(Scope()), variants);
      return Ok(variants);
    }

    /** One member of a `type Params = A | B` union, in `resolve_params_type_decl`'s loop. */
    method ResolveUnionMember(member: Type) returns (r: Result<ParamVariant, ExtractError>)
      requires CurrentModuleResolved(State())
      ensures r == UnionMemberVariant(Scope(), member)
    {
      match member
      case TableType(_) =>
        r := ResolveTypeDeclForParamVariant(member);
      case TypeField(_, _) =>
        r := ResolveTypeDeclForParamVariant(member);
      case TypeName(name) =>
        var declaration := GetTypeDeclForName(Scope(), name);
        if declaration.Err? {
          return Err(declaration.error);
        }
        r := ResolveTypeDeclForParamVariant(declaration.value.declaredType);
      case _ =>
        r := Err(UnsupportedUnionType(member));
    }

    /** `resolve_params_type_decl` */
    method ResolveParamsTypeDecl(declaration: TypeDeclaration) returns (r: Result<seq<ParamVariant>, ExtractError>)
      requires CurrentModuleResolved(State())
      ensures r == DeclVariants(Scope(), declaration.declaredType)
    {
      var declaredType := declaration.declaredType;
      match declaredType
      case TableType(_) =>
        var variant := ResolveTypeDeclForParamVariant(declaredType);
        r := Single(variant);
      case TypeName(_) =>
        var variant := ResolveTypeDeclForParamVariant(declaredType);
        r := Single(variant);
      case TypeField(_, typeName) =>
        var fieldDeclaration := GetTypeDeclForName(Scope(), typeName);
        if fieldDeclaration.Err? {
          return Err(fieldDeclaration.error);
        }
        var fieldType := fieldDeclaration.value.declaredType;
        if fieldType.UnionType? {
          r := ResolveEachVariant(fieldType.types);
        } else {
          var variant := ResolveTypeDeclForParamVariant(fieldType);
          r := Single(variant);
        }
      case UnionType(members) =>
        r := ResolveUnionVariants(members);
      case _ =>
        r := Err(UnsupportedTypeDeclaration(declaredType));
    }

    /**
      * `resolve_type_from_extern_file`: loads the module bound to `moduleName`, records its
      * type declarations, and resolves its declaration of `typeName` with it as the current
      * module.
      */
    method ResolveTypeFromExternFile(moduleName: string, typeName: string, readModule: ModuleReader)
      returns (r: Result<seq<ParamVariant>, ExtractError>)
      requires Fresh(State())
      modifies this
      ensures (State(), r) == ParamSchema.ResolveTypeFromExternFile(old(State()), moduleName, typeName, readModule)
    {
      if moduleName !in nameToModulePath {
        return Err(ModuleNotFound(moduleName));
      }
      var path := nameToModulePath[moduleName];
      if path !in modules {
        return Err(ModuleNotInModules(moduleName));
      }
      currentModulePath := path;
      var statements := readModule(path).statements;
      var localTypes: map<string, TypeDeclaration> := map[];
      var i := 0;
      while i < |statements|
        invariant 0 <= i <= |statements|
        invariant localTypes == LocalTypes(statements[..i])
      {
        if statements[i].TypeDeclarationStatement? {
          localTypes := localTypes[statements[i].typeDeclaration.name := statements[i].typeDeclaration];
        }
        assert statements[..i + 1][..i] == statements[..i];
        i := i + 1;
      }
      assert statements[..i] == statements;
      modules := modules[path := Resolved(Module(localTypes))];
      var found := FindTypeDeclaration(statements, typeName);
      if found.None? {
        return Err(TypeDeclarationNotFound(typeName));
      }
      r := ResolveParamsTypeDecl(found.value);
      currentModulePath := "";
    }

    /** One turn of `process_block`'s loop over the top-level statements. */
    method CollectStatement(statement: Statement, locate: Locator)
      modifies this
      ensures State() == ParamSchema.CollectStatement(old(State()), statement, locate)
    {
      match statement
      case LocalAssign(_, _) =>
        CollectRequire(statement, locate);
      case TypeDeclarationStatement(declaration) =>
        mainModuleTypes := mainModuleTypes[declaration.name := declaration];
      case FunctionStatement(name, parameters, body) =>
        if name.name == "main" {
          mainFunction := Some(FunctionDecl(name, parameters, body));
        }
      case _ =>
    }

    /** The `local` arm of the loop: a followed `require` registers its module under the local's name. */
    method CollectRequire(statement: Statement, locate: Locator)
      requires statement.LocalAssign?
      modifies this
      ensures State() == ParamSchema.CollectStatement(old(State()), statement, locate)
    {
      var variables, values := statement.localVariables, statement.localValues;
      if |variables| != 1 || |values| != 1 {
        return;
      }
      var requireFile: Option<string> := None;
      match values[0] {
        case Call(call) =>
          var prefixIsOkay := call.prefix == PrefixIdentifier("require");
          var argsAreOkay := call.arguments.Tuple? && |call.arguments.values| == 1 && call.arguments.values[0].Str?;
          if prefixIsOkay && argsAreOkay {
            requireFile := Some(call.arguments.values[0].value);
          }
        case _ =>
      }
      assert requireFile.Some? <==> LocalRequirePath(statement).Some?;
      if requireFile.None? || StartsWith(requireFile.value, "@") {
        return;
      }
      assert LocalRequirePath(statement).value == (variables[0].name, requireFile.value);
      var file := WithLuauExtension(requireFile.value);
      var fullPath := locate(mainModulePath, cwd, file);
      modules := modules[fullPath := NotYetResolved];
      nameToModulePath := nameToModulePath[variables[0].name := fullPath];
    }

    /** The checks on `main` after the statements are collected, and the resolution of its parameter's type. */
    method ResolveMainFunction(readModule: ModuleReader)
      requires Fresh(State())
      modifies this
      ensures State() == ParamSchema.ResolveMainFunction(old(State()), readModule)
    {
      var main := mainFunction;
      mainFunction := None;
      if main.None? {
        errors := errors + [NoMainFunction];
        return;
      }
      var parameters := main.value.parameters;
      if |parameters| == 0 {
        return;
      }
      if |parameters| > 1 {
        errors := errors + [TooManyParameters(|parameters|)];
      }
      var parameter := parameters[0];
      if parameter.ty.None? {
        errors := errors + [NoParameterType];
        return;
      }
      ResolveParameterType(parameter.ty.value, readModule);
    }

    /** The match on the type of `main`'s first parameter. */
    method ResolveParameterType(parameterType: Type, readModule: ModuleReader)
      requires Fresh(State())
      modifies this
      ensures State() == ParamSchema.ResolveParameterType(old(State()), parameterType, readModule)
    {
      match parameterType
      case TableType(table) =>
        var resolved := ResolveTypeTable(table);
        if resolved.Ok? {
          params := [resolved.value];
        } else {
          errors := errors + [ErrorResolvingTypeTable(resolved.error)];
        }
      case TypeField(moduleName, typeName) =>
        var resolved := ResolveTypeFromExternFile(moduleName, typeName, readModule);
        if resolved.Ok? {
          params := resolved.value;
        } else {
          errors := errors + [ErrorResolvingModule(resolved.error)];
        }
      case TypeName(name) =>
        if !IsUserDefinedType(name) {
          errors := errors + [UserDefinedTypeNotSupported(name)];
          return;
        }
        if name !in mainModuleTypes {
          errors := errors + [TypeNotFoundInMainModule(name)];
          return;
        }
        var resolved := ResolveParamsTypeDecl(mainModuleTypes[name]);
        if resolved.Ok? {
          params := resolved.value;
        } else {
          errors := errors + [ErrorResolvingTypeDeclaration(resolved.error)];
        }
      case _ =>
        errors := errors + [UnsupportedParameterType(parameterType)];
    }

    /** `process_block` on the file's top-level block. */
    method ProcessBlock(block: Block, locate: Locator, readModule: ModuleReader)
      requires Fresh(State())
      modifies this
      ensures State() == ParamSchema.ProcessBlock(old(State()), block, locate, readModule)
    {
      if mainFunction.Some? {
        return;
      }
      var statements := block.statements;
      var i := 0;
      while i < |statements|
        invariant 0 <= i <= |statements|
        invariant State() == Collect(old(State()), statements[..i], locate)
      {
        CollectFindsLastMain(old(State()), statements[..i], locate);
        CollectStatement(statements[i], locate);
        assert statements[..i + 1][..i] == statements[..i];
        i := i + 1;
      }
      assert statements[..i] == statements;
      CollectFindsLastMain(old(State()), statements, locate);
      ResolveMainFunction(readModule);
    }
  }

  /** `extract_params` on a parsed file: the variants, or every error collected. */
  method ExtractParams(block: Block, filePath: string, cwd: Option<string>, locate: Locator, readModule: ModuleReader)
    returns (r: Result<seq<ParamVariant>, seq<ExtractError>>)
    ensures r == ParamSchema.ExtractParams(block, filePath, cwd, locate, readModule)
  {
    var visitor := new ParamExtractorVisitor(cwd);
    visitor.mainModulePath := filePath;
    visitor.ProcessBlock(block, locate, readModule);
    if visitor.errors != [] {
      return Err(visitor.errors);
    }
    return Ok(visitor.params);
  }
}
