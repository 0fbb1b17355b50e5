// The order in which darklua's `DefaultVisitor` hands syntax nodes to a `NodeProcessor`.
// The driver belongs to darklua, not to this repository: it is modelled by the sequence
// of the callbacks that the processors of this repository implement
// (`process_statement`, `process_expression`, `process_prefix_expression` and
// `process_function_call`), each called on a node before that node's children are visited.
module DefaultVisitor {
  import opened Wrappers
  import opened LuaAst

  datatype Event =
    | StatementEvent(statement: Statement)
    | ExpressionEvent(expression: Expression)
    | PrefixEvent(prefix: Prefix)
    | FunctionCallEvent(call: FunctionCall)

  function BlockEvents(block: Block): seq<Event>
    decreases block, 1
  {
    StatementsEvents(block.statements) + LastStatementEvents(block.lastStatement)
  }

  function StatementsEvents(statements: seq<Statement>): seq<Event>
    decreases statements, 0
  {
    if statements == [] then [] else StatementEvents(statements[0]) + StatementsEvents(statements[1..])
  }

  function LastStatementEvents(last: Option<LastStatement>): seq<Event>
    decreases last, 0
  {
    match last
    case Some(Return(values)) => ExpressionsEvents(values)
    case _ => []
  }

  function StatementEvents(statement: Statement): seq<Event>
    decreases statement, 0
  {
    [StatementEvent(statement)] +
    match statement
    case Assign(variables, values) => VariablesEvents(variables) + ExpressionsEvents(values)
    case CompoundAssign(_, variable, value) => VariableEvents(variable) + ExpressionEvents(value)
    case CallStatement(call) => FunctionCallEvents(call)
    case Do(block) => BlockEvents(block)
    case FunctionStatement(_, _, body) => BlockEvents(body)
    case GenericFor(_, expressions, body) => ExpressionsEvents(expressions) + BlockEvents(body)
    case If(ifStatement) =>
      BranchEvents(ifStatement.firstBranch) + BranchesEvents(ifStatement.elseIfBranches) + ElseEvents(ifStatement.elseBlock)
    case LocalAssign(_, values) => ExpressionsEvents(values)
    case LocalFunction(_, _, body) => BlockEvents(body)
    case NumericFor(_, start, end, step, body) =>
      ExpressionEvents(start) + ExpressionEvents(end) + OptionalExpressionEvents(step) + BlockEvents(body)
    case Repeat(body, condition) => ExpressionEvents(condition) + BlockEvents(body)
    case While(condition, body) => ExpressionEvents(condition) + BlockEvents(body)
    case TypeDeclarationStatement(_) => []
  }

  function BranchesEvents(branches: seq<IfBranch>): seq<Event>
    decreases branches, 0
  {
    if branches == [] then [] else BranchEvents(branches[0]) + BranchesEvents(branches[1..])
  }

  function BranchEvents(branch: IfBranch): seq<Event>
    decreases branch, 0
  {
    ExpressionEvents(branch.condition) + BlockEvents(branch.block)
  }

  function ElseEvents(elseBlock: Option<Block>): seq<Event>
    decreases elseBlock, 0
  {
    match elseBlock
    case Some(block) => BlockEvents(block)
    case None => []
  }

  function OptionalExpressionEvents(expression: Option<Expression>): seq<Event>
    decreases expression, 0
  {
    match expression
    case Some(e) => ExpressionEvents(e)
    case None => []
  }

  function VariablesEvents(variables: seq<Variable>): seq<Event>
    decreases variables, 0
  {
    if variables == [] then [] else VariableEvents(variables[0]) + VariablesEvents(variables[1..])
  }

  function VariableEvents(variable: Variable): seq<Event>
    decreases variable, 0
  {
    match variable
    case VariableIdentifier(_) => []
    case VariableField(fieldExpression) => FieldEvents(fieldExpression)
    case VariableIndex(indexExpression) => IndexEvents(indexExpression)
  }

  function ExpressionsEvents(expressions: seq<Expression>): seq<Event>
    decreases expressions, 0
  {
    if expressions == [] then [] else ExpressionEvents(expressions[0]) + ExpressionsEvents(expressions[1..])
  }

  function ExpressionEvents(expression: Expression): seq<Event>
    decreases expression, 1
  {
    [ExpressionEvent(expression)] +
    match expression
    case Field(fieldExpression) => FieldEvents(fieldExpression)
    case Index(indexExpression) => IndexEvents(indexExpression)
    case Call(call) => FunctionCallEvents(call)
    case Binary(_, left, right) => ExpressionEvents(left) + ExpressionEvents(right)
    case Unary(_, operand) => ExpressionEvents(operand)
    case Parenthese(inner) => ExpressionEvents(inner)
    case FunctionExpression(_, body) => BlockEvents(body)
    case Table(entries) => TableEntriesEvents(entries)
    case IfExpression(_, _, _, _) => IfExpressionEvents(expression)
    case InterpolatedString(segments) => SegmentsEvents(segments)
    case TypeCast(value, _) => ExpressionEvents(value)
    case _ => []
  }

  /** The children of an if-expression: condition, result, each `elseif` pair, then the `else` result. */
  function IfExpressionEvents(expression: Expression): seq<Event>
    requires expression.IfExpression?
    decreases expression, 0
  {
    ExpressionEvents(expression.ifCondition) + ExpressionEvents(expression.ifResult)
    + ElseIfResultsEvents(expression.elseIfResults) + ExpressionEvents(expression.elseResult)
  }

  function ElseIfResultsEvents(branches: seq<ElseIfResult>): seq<Event>
    decreases branches, 0
  {
    if branches == [] then [] else ElseIfResultEvents(branches[0]) + ElseIfResultsEvents(branches[1..])
  }

  function ElseIfResultEvents(branch: ElseIfResult): seq<Event>
    decreases branch, 0
  {
    ExpressionEvents(branch.branchCondition) + ExpressionEvents(branch.branchResult)
  }

  function SegmentsEvents(segments: seq<StringSegment>): seq<Event>
    decreases segments, 0
  {
    if segments == [] then [] else SegmentEvents(segments[0]) + SegmentsEvents(segments[1..])
  }

  /** Only a `{value}` segment holds an expression. */
  function SegmentEvents(segment: StringSegment): seq<Event>
    decreases segment, 0
  {
    match segment
    case TextSegment(_) => []
    case ValueSegment(value) => ExpressionEvents(value)
  }

  function FieldEvents(fieldExpression: FieldExpression): seq<Event>
    decreases fieldExpression, 0
  {
    PrefixEvents(fieldExpression.prefix)
  }

  function IndexEvents(indexExpression: IndexExpression): seq<Event>
    decreases indexExpression, 0
  {
    PrefixEvents(indexExpression.prefix) + ExpressionEvents(indexExpression.index)
  }

  function PrefixEvents(prefix: Prefix): seq<Event>
    decreases prefix, 0
  {
    [PrefixEvent(prefix)] +
    match prefix
    case PrefixIdentifier(_) => []
    case PrefixField(fieldExpression) => FieldEvents(fieldExpression)
    case PrefixIndex(indexExpression) => IndexEvents(indexExpression)
    case PrefixCall(call) => FunctionCallEvents(call)
    case PrefixParenthese(inner) => ExpressionEvents(inner)
  }

  function FunctionCallEvents(call: FunctionCall): seq<Event>
    decreases call, 0
  {
    [FunctionCallEvent(call)] + PrefixEvents(call.prefix) + ArgumentsEvents(call.arguments)
  }

  function ArgumentsEvents(arguments: Arguments): seq<Event>
    decreases arguments, 0
  {
    match arguments
    case Tuple(values) => ExpressionsEvents(values)
    case ArgumentString(_) => []
    case ArgumentTable(entries) => TableEntriesEvents(entries)
  }

  function TableEntriesEvents(entries: seq<TableEntry>): seq<Event>
    decreases entries, 0
  {
    if entries == [] then [] else TableEntryEvents(entries[0]) + TableEntriesEvents(entries[1..])
  }

  function TableEntryEvents(entry: TableEntry): seq<Event>
    decreases entry, 0
  {
    match entry
    case FieldEntry(_, value) => ExpressionEvents(value)
    case IndexEntry(key, value) => ExpressionEvents(key) + ExpressionEvents(value)
    case ValueEntry(value) => ExpressionEvents(value)
  }
}
