// The part of darklua's Luau syntax tree that the version engine and the parameter
// extractor inspect. Nodes the code never looks inside (operators, attribute lists,
// generics, type packs) are reduced to what the visitors need to traverse.
module LuaAst {
  import opened Wrappers

  /**
    * A piece of trivia in front of a token. For a comment, `content` is the text that
    * follows the opening `--` (the lexer only produces comments that start with `--`).
    */
  datatype Trivia = Comment(content: string) | Whitespace(content: string)

  /** A token kept by a parser that preserves tokens; only its leading trivia matter here. */
  datatype Token = Token(leadingTrivia: seq<Trivia>)

  // ---- Luau types ----

  datatype Type =
    | TypeName(name: string)                              // `T`
    | TypeField(namespace: string, typeName: string)      // `module.T`
    | FunctionType
    | ArrayType(elementType: Type)                        // `{ T }`
    | TableType(table: TableTypeNode)
    | TypeOfType
    | TrueType
    | FalseType
    | NilType
    | StringType(value: string)                           // `"A"`
    | OptionalType(innerType: Type)                       // `T?`
    | UnionType(types: seq<Type>)
    | IntersectionType(types: seq<Type>)
    | ParentheseType(innerType: Type)                     // `(T)`

  datatype TableTypeNode = TableTypeNode(entries: seq<TableEntryType>)

  datatype TableEntryType =
    | PropertyEntry(propertyName: string, propertyToken: Option<Token>, propertyType: Type)
    | LiteralEntry(literal: string, literalToken: Option<Token>, literalType: Type)
    | IndexerEntry(keyType: Type, valueType: Type)

  datatype TypeDeclaration = TypeDeclaration(name: string, declaredType: Type)

  /** A local name or a parameter, with its optional type annotation. */
  datatype TypedIdentifier = TypedIdentifier(name: string, ty: Option<Type>)

  // ---- expressions ----

  datatype Expression =
    | Identifier(name: string)
    | Field(fieldExpression: FieldExpression)
    | Index(indexExpression: IndexExpression)
    | Call(call: FunctionCall)
    | Str(value: string)
    | Number(text: string)
    | True
    | False
    | Nil
    | VariableArguments
    | Binary(binaryOperator: string, left: Expression, right: Expression)
    | Unary(unaryOperator: string, operand: Expression)
    | Parenthese(inner: Expression)
    | FunctionExpression(parameters: seq<TypedIdentifier>, body: Block)
    | Table(tableEntries: seq<TableEntry>)
    /** `if c then r elseif c1 then r1 ... else e` */
    | IfExpression(ifCondition: Expression, ifResult: Expression, elseIfResults: seq<ElseIfResult>, elseResult: Expression)
    /** `` `text {value} text` `` */
    | InterpolatedString(segments: seq<StringSegment>)
    /** `value :: T` */
    | TypeCast(castExpression: Expression, castType: Type)

  /** `elseif c then r` inside an if-expression. */
  datatype ElseIfResult = ElseIfResult(branchCondition: Expression, branchResult: Expression)

  /** A piece of an interpolated string: literal text, or a `{value}` expression. */
  datatype StringSegment = TextSegment(text: string) | ValueSegment(segmentValue: Expression)

  /** `prefix.field` */
  datatype FieldExpression = FieldExpression(prefix: Prefix, field: string)

  /** `prefix[index]` */
  datatype IndexExpression = IndexExpression(prefix: Prefix, index: Expression)

  datatype Prefix =
    | PrefixIdentifier(name: string)
    | PrefixField(fieldExpression: FieldExpression)
    | PrefixIndex(indexExpression: IndexExpression)
    | PrefixCall(call: FunctionCall)
    | PrefixParenthese(inner: Expression)

  /** `prefix(arguments)`, or `prefix:method(arguments)` when `methodName` is present. */
  datatype FunctionCall = FunctionCall(prefix: Prefix, arguments: Arguments, methodName: Option<string>)

  datatype Arguments =
    | Tuple(values: seq<Expression>)       // `f(a, b)`
    | ArgumentString(value: string)        // `f "s"`
    | ArgumentTable(entries: seq<TableEntry>) // `f { ... }`

  datatype TableEntry =
    | FieldEntry(fieldName: string, fieldValue: Expression)
    | IndexEntry(key: Expression, indexValue: Expression)
    | ValueEntry(value: Expression)

  datatype Variable =
    | VariableIdentifier(name: string)
    | VariableField(fieldExpression: FieldExpression)
    | VariableIndex(indexExpression: IndexExpression)

  // ---- statements ----

  /** `function name.field1.field2:method(...)`; `name` is the first identifier. */
  datatype FunctionName = FunctionName(name: string, fieldNames: seq<string>, methodName: Option<string>)

  datatype IfBranch = IfBranch(condition: Expression, block: Block)

  /**
    * `if c0 then b0 elseif c1 then b1 ... else e end`. The parser never produces an `if`
    * without its first branch, so the first branch is a field of its own.
    */
  datatype IfStatement = IfStatement(firstBranch: IfBranch, elseIfBranches: seq<IfBranch>, elseBlock: Option<Block>)
  {
    function Branches(): seq<IfBranch>
    {
      [firstBranch] + elseIfBranches
    }
  }

  datatype Statement =
    | Assign(variables: seq<Variable>, assignedValues: seq<Expression>)
    | CompoundAssign(compoundOperator: string, variable: Variable, compoundValue: Expression)
    | CallStatement(call: FunctionCall)
    | Do(doBlock: Block)
    | FunctionStatement(functionName: FunctionName, functionParameters: seq<TypedIdentifier>, functionBody: Block)
    | GenericFor(identifiers: seq<string>, expressions: seq<Expression>, genericForBody: Block)
    | If(ifStatement: IfStatement)
    | LocalAssign(localVariables: seq<TypedIdentifier>, localValues: seq<Expression>)
    | LocalFunction(localFunctionName: string, localFunctionParameters: seq<TypedIdentifier>, localFunctionBody: Block)
    | NumericFor(forIdentifier: string, start: Expression, end: Expression, step: Option<Expression>, numericForBody: Block)
    | Repeat(repeatBody: Block, untilCondition: Expression)
    | While(whileCondition: Expression, whileBody: Block)
    | TypeDeclarationStatement(typeDeclaration: TypeDeclaration)

  datatype LastStatement = Break | Continue | Return(returnValues: seq<Expression>)

  datatype Block = Block(statements: seq<Statement>, lastStatement: Option<LastStatement>)

  /** `Block::new(vec![], None)` */
  function EmptyBlock(): Block
  {
    Block([], None)
  }
}
