// The expectations of the repository's parameter-extraction tests (tests/params_extraction),
// stated on the model: the flows themselves are written out here as syntax trees.
module ParamExamples {
  import opened Wrappers
  import opened Strings
  import opened LuaAst
  import opened ParamSchema

  /** `function main(params: T) end` as a top-level statement. */
  function MainWith(parameterType: Type): Statement
  {
    FunctionStatement(FunctionName("main", [], None), [TypedIdentifier("params", Some(parameterType))], Block([], None))
  }

  /** A property without comments. */
  function Property(name: string, ty: Type): TableEntryType
  {
    PropertyEntry(name, None, ty)
  }

  /** t2: `function main(params: { a: number, b: number })` gives one variant of two required numbers. */
  lemma TwoNumberFields(filePath: string, cwd: Option<string>, locate: Locator, readModule: ModuleReader)
    ensures var table := TableTypeNode([Property("a", TypeName("number")), Property("b", TypeName("number"))]);
            ExtractParams(Block([MainWith(TableType(table))], None), filePath, cwd, locate, readModule)
              == Ok([[Param("a", "", "number", true), Param("b", "", "number", true)]])
  {
    var table := TableTypeNode([Property("a", TypeName("number")), Property("b", TypeName("number"))]);
    var block := Block([MainWith(TableType(table))], None);
    assert LastMain(block.statements) == Some(FunctionDecl(FunctionName("main", [], None),
      [TypedIdentifier("params", Some(TableType(table)))], Block([], None)));
    TableParameterIsTheVariant(block, filePath, cwd, locate, readModule, table);
    var scope := MainModule(Collected(block, filePath, cwd, locate).mainModuleTypes);
    SimpleTypeOfBuiltinName(scope, "number");
    var f := ParamOfFn(scope);
    var entries := table.entries;
    assert f(entries[0]) == Ok(Param("a", "", "number", true));
    assert f(entries[1]) == Ok(Param("b", "", "number", true));
    var r := TableParams(scope, entries);
    assert r.Ok? && |r.value| == 2;
    assert r.value == [Param("a", "", "number", true), Param("b", "", "number", true)] by {
      assert r.value[0] == f(entries[0]).value && r.value[1] == f(entries[1]).value;
    }
  }

  /** t8: `field1: string?` is an optional string, `field2: string` a required one. */
  lemma OptionalAndRequiredStrings(scope: TypeScope)
    ensures FieldParam(scope, "field1", None, OptionalType(TypeName("string"))) == Ok(Param("field1", "", "string", false))
    ensures FieldParam(scope, "field2", None, TypeName("string")) == Ok(Param("field2", "", "string", true))
  {
    SimpleTypeOfBuiltinName(scope, "string");
    SimpleTypeSeesThroughOptional(scope, TypeName("string"));
  }

  /**
    * t6: `action: "start" | "status" | "download"` is one required field whose type lists
    * the three quoted literals, separated by `" | "`.
    */
  lemma StringUnionField(scope: TypeScope)
    ensures FieldParam(scope, "action", None, UnionType([StringType("start"), StringType("status"), StringType("download")]))
      == Ok(Param("action", "", Join([Quote("start"), Quote("status"), Quote("download")], " | "), true))
  {
    var members := [StringType("start"), StringType("status"), StringType("download")];
    RenderStringUnion(FieldUnion, members);
    var quoted := QuotedValues(members);
    assert quoted == [Quote("start"), Quote("status"), Quote("download")] by {
      assert quoted[0] == Quote("start") && quoted[1] == Quote("status") && quoted[2] == Quote("download");
    }
  }

  /** t9: a one-line comment before a field's name is its description, without `--` and trimmed. */
  lemma CommentBecomesDescription()
    ensures Description(Some(Token([Comment(" the field a"), Whitespace("\n  ")]))) == "the field a"
  {
    var text := "the field a";
    var content := [' '] + text;
    assert content == " the field a";
    assert text[0] == 't' && text[|text| - 1] == 'a';
    TrimDropsLeadingSpace(text);
    assert !IsMultilineComment("--" + content) by {
      assert ("--" + content)[2] == ' ' && "--[["[2] == '[';
    }
    SingleLineCommentIsTrimmed(content);
    assert CommentStrings([Comment(content), Whitespace("\n  ")]) == [text];
  }
}
