/**
 * The parsed C# document the rules inspect: elements (declarations), statements,
 * expressions and the flat token list, as the StyleCop host hands them over.
 * The host's parent links are not stored in the nodes; the traversals carry the
 * path of enclosing code units instead (see `CodeUnit`).
 */
module Syntax {

  datatype Option<T> = None | Some(value: T)

  /** The kinds of declaration the parser produces. */
  datatype ElementType =
    | Root | ExternAliasDirective | UsingDirective | AssemblyAttribute | Namespace
    | Field | Constructor | Destructor | Delegate | Event | Enum | EnumItem | Interface
    | Property | Accessor | Indexer | Method | Struct | Class | EmptyElement

  datatype AccessModifier = Public | Internal | ProtectedInternal | Protected | Private | ProtectedAndInternal

  /** A local variable (or parameter) registered on a code unit, with its declaration point. */
  datatype Variable = Variable(name: string, line: int, column: int)

  /**
   * A declaration. `isStatic` answers the declaration's "contains the static modifier"
   * query, `isConst` is a field's const flag and `returnType` the text of a property's
   * return type; all three are host queries whose code is not part of this model.
   */
  datatype Element = Element(
    kind: ElementType,
    name: string,
    access: AccessModifier,
    generated: bool,
    isStatic: bool,
    isConst: bool,
    returnType: string,
    line: int,
    variables: seq<Variable>,
    children: seq<Element>,
    statements: seq<Statement>)

  datatype Statement = Statement(statements: seq<Statement>, expressions: seq<Expression>, variables: seq<Variable>)

  /**
   * The expression kinds the member-reference traversal distinguishes; every other kind
   * is an `OtherExpression`. A literal refers to its token by index in the document's
   * token list.
   */
  datatype Expression =
    | Literal(token: nat, variables: seq<Variable>)
    | VariableDeclarator(identifier: Expression, initializer: Option<Expression>, variables: seq<Variable>)
    | Assignment(leftHandSide: Expression, rightHandSide: Expression, variables: seq<Variable>)
    | ObjectInitializer(children: seq<Expression>, variables: seq<Variable>)
    | CollectionInitializer(children: seq<Expression>, variables: seq<Variable>)
    | AnonymousMethod(children: seq<Expression>, statements: seq<Statement>, variables: seq<Variable>)
    | MethodInvocation(children: seq<Expression>, arguments: seq<Expression>, variables: seq<Variable>)
    | OtherExpression(children: seq<Expression>, variables: seq<Variable>)

  /** The child expressions the host lists for an expression. */
  function ChildExpressions(e: Expression): seq<Expression>
  {
    match e
    case Literal(_, _) => []
    case VariableDeclarator(id, init, _) => [id] + (if init.Some? then [init.value] else [])
    case Assignment(lhs, rhs, _) => [lhs, rhs]
    case ObjectInitializer(cs, _) => cs
    case CollectionInitializer(cs, _) => cs
    case AnonymousMethod(cs, _, _) => cs
    case MethodInvocation(cs, _, _) => cs
    case OtherExpression(cs, _) => cs
  }

  /** Any node that can declare variables; the host's parent links run between these. */
  datatype CodeUnit =
    | ElementUnit(element: Element)
    | StatementUnit(statement: Statement)
    | ExpressionUnit(expression: Expression)

  function VariablesOf(u: CodeUnit): seq<Variable>
  {
    match u
    case ElementUnit(el) => el.variables
    case StatementUnit(s) => s.variables
    case ExpressionUnit(e) => e.variables
  }

  datatype OperatorType = MemberAccess | Pointer | QualifiedAlias | OtherOperator

  datatype TokenType =
    | WhiteSpace | EndOfLine | SingleLineComment | MultiLineComment
    | OperatorSymbol(symbol: OperatorType)
    | OtherTokenType

  /** Type and GenericType tokens are the host's type tokens; they own a child token list. */
  datatype TokenClass = TypeClass | GenericTypeClass | OtherClass

  datatype Token = Token(
    tokenType: TokenType,
    tokenClass: TokenClass,
    text: string,
    line: int,
    column: int,
    childTokens: seq<Token>)

  predicate IsTypeToken(t: Token)
  {
    t.tokenClass == TypeClass || t.tokenClass == GenericTypeClass
  }

  /** The rule identifiers violations are reported under. */
  datatype Rule =
    | InstanceVariablesUnderscorePrefix
    | MinimumFieldLength
    | DoNotUseBuiltInTypeAliases
    | UseThisPrefix

  /** One report to the host's violation sink: the rule, the line and the message arguments. */
  datatype Violation = Violation(rule: Rule, line: int, args: seq<string>)

  /** Ordinal prefix test. */
  predicate StartsWith(s: string, prefix: string)
  {
    |prefix| <= |s| && s[..|prefix|] == prefix
  }

  /** Appending to a report list is associative (used to re-bracket running totals). */
  lemma AppendAssoc<T>(a: seq<T>, b: seq<T>, c: seq<T>)
    ensures (a + b) + c == a + (b + c)
  {
  }
}
