/**
 * The EngLang syntax tree: one constructor per C# record of the front end.
 * `Expression` and `Statement` are the sums of the expression and statement
 * records; `SyntaxNode` is the sum of everything a converter can be handed.
 */
module Ast {
  import opened Wrappers
  import opened Text

  type Byte = x: int | 0 <= x < 0x100

  datatype LogicalOperator = Equals | NotEquals | Less | LessOrEquals | Greater | GreaterOrEquals | Invalid

  datatype MathOperator = Plus | Minus | Multiply | Divide | Concat

  /** A possibly qualified name: `owner.name`. */
  datatype IdentifierReference = IdentifierReference(name: string, owner: Option<IdentifierReference>)

  /** A type name; the name is absent when a parser found no type. */
  datatype TypeIdentifierReference = TypeIdentifierReference(name: Option<string>, isCollection: bool)

  datatype SlotDeclaration = SlotDeclaration(name: string, isCollection: bool, aliasFor: Option<string>)

  /** A shape (class) with an optional base shape and optional well-known slots. */
  datatype ShapeDeclaration = ShapeDeclaration(
    name: string,
    baseShapeName: Option<TypeIdentifierReference>,
    wellKnownSlots: Option<seq<SlotDeclaration>>)
  {
    /** The `Children` enumeration: the name, then the base shape if there is one, then the slots in order. */
    function Children(): (r: seq<SyntaxNode>)
      ensures |r| == 1 + (if baseShapeName.Some? then 1 else 0) + (if wellKnownSlots.Some? then |wellKnownSlots.value| else 0)
      ensures r[0] == IdentifierReferenceNode(IdentifierReference(name, None))
      ensures baseShapeName.Some? <==> |r| > 1 && r[1].TypeIdentifierReferenceNode?
      ensures baseShapeName.Some? ==> r[1] == TypeIdentifierReferenceNode(baseShapeName.value)
      ensures var first := if baseShapeName.Some? then 2 else 1;
              wellKnownSlots.Some? ==>
                forall i :: 0 <= i < |wellKnownSlots.value| ==> r[first + i] == SlotDeclarationNode(wellKnownSlots.value[i])
    {
      [IdentifierReferenceNode(IdentifierReference(name, None))]
      + (if baseShapeName.Some? then [TypeIdentifierReferenceNode(baseShapeName.value)] else [])
      + (if wellKnownSlots.Some? then SlotNodes(wellKnownSlots.value) else [])
    }
  }

  function SlotNodes(slots: seq<SlotDeclaration>): (r: seq<SyntaxNode>)
    ensures |r| == |slots|
    ensures forall i :: 0 <= i < |slots| ==> r[i] == SlotDeclarationNode(slots[i])
  {
    if slots == [] then [] else [SlotDeclarationNode(slots[0])] + SlotNodes(slots[1..])
  }

  /** A variable declaration: `the <name> is a <type> [equal to <expression>]`. */
  datatype VariableDeclaration = VariableDeclaration(name: string, typeName: TypeIdentifierReference, expression: Option<Expression>)

  /** The markers and parameters that label a paragraph or a statement. */
  datatype InvokableLabel = InvokableLabel(markers: seq<string>, parameters: seq<IdentifierReference>)

  datatype Expression =
    | IntLiteralExpression(intValue: Int32)
    | StringLiteralExpression(text: string)
      /** `display` is the text .NET's generated record `ToString` gives for `measure`. */
    | InchLiteralExpression(measure: Expression, display: string)
    | RatioLiteralExpression(numerator: Int32, ratioDenominator: Int32)
    | NullLiteralExpression
    | ByteArrayLiteralExpression(bytes: seq<Byte>)
    | VariableExpression(identifier: IdentifierReference)
    | InPlaceAdditionExpression(addend: Expression, target: IdentifierReference)
    | InPlaceSubtractExpression(subtrahend: Expression, target: IdentifierReference)
    | InPlaceMultiplyExpression(factor: Expression, target: IdentifierReference)
    | InPlaceDivisionExpression(denominator: Expression, target: IdentifierReference)
    | InPlaceMathExpression(mathOperator: MathOperator, changeValue: Expression, target: IdentifierReference)
    | AssignmentExpression(variable: IdentifierReference, assignedValue: Expression)
    | InvalidExpression(code: string)
    | LogicalExpression(logicalOperator: LogicalOperator, firstOperand: Expression, secondOperand: Expression)
    | MathExpression(mathOperator: MathOperator, firstOperand: Expression, secondOperand: Expression)
    | PosessiveExpression(identifier: IdentifierReference, owner: Expression)
    | InvocationExpression(marker: string, parameters: seq<Expression>)

  datatype Statement =
    | BlockStatement(statements: seq<Statement>)
    | VariableDeclarationStatement(declaration: VariableDeclaration)
    | ShapeDeclarationStatement(shape: ShapeDeclaration)
    | ExpressionStatement(expression: Expression)
    | IfStatement(condition: Expression, body: Statement)
    | ResultStatement(value: Expression)
    | LabeledStatement(invokableLabel: InvokableLabel, parameters: seq<IdentifierReference>, body: Statement)
    | InvocationStatement(marker: string, arguments: seq<Expression>, resultIdentifier: Option<IdentifierReference>)
    | PointerDeclarationStatement(pointerType: IdentifierReference, baseType: TypeIdentifierReference)
    | ConstantDeclarationStatement(identifier: IdentifierReference, value: Expression)
    | UnitAliasDeclarationStatement(identifier: IdentifierReference, value: Expression, baseUnit: IdentifierReference)
      /** The texts of the tokens that did not parse. */
    | InvalidStatement(tokens: seq<string>)
      /** The statement form only the legacy C# converter knows. */
    | AssignmentStatement(expression: Expression)
    | ParagraphStatement(paragraph: Paragraph)

  /** A paragraph is a statement list with an optional label. */
  datatype Paragraph = Paragraph(statements: seq<Statement>, invokableLabel: Option<InvokableLabel>)

  datatype SyntaxNode =
    | ParagraphListNode(paragraphs: seq<Paragraph>)
    | StatementNode(statement: Statement)
    | ExpressionNode(expression: Expression)
    | VariableDeclarationNode(declaration: VariableDeclaration)
    | ShapeDeclarationNode(shape: ShapeDeclaration)
    | IdentifierReferenceNode(identifier: IdentifierReference)
    | TypeIdentifierReferenceNode(typeReference: TypeIdentifierReference)
    | SlotDeclarationNode(slot: SlotDeclaration)
    | InvokableLabelNode(invokableLabel: InvokableLabel)
    | CommentLabelNode(text: string)

  /**
   * The expression and every expression nested in it, in the order the
   * converters visit them (the expression-valued `Children` of each record).
   */
  function ExpressionsWithin(e: Expression): (r: seq<Expression>)
    ensures |r| >= 1 && r[0] == e
  {
    [e] + match e
      case InPlaceAdditionExpression(v, _) => ExpressionsWithin(v)
      case InPlaceSubtractExpression(v, _) => ExpressionsWithin(v)
      case InPlaceMultiplyExpression(v, _) => ExpressionsWithin(v)
      case InPlaceDivisionExpression(v, _) => ExpressionsWithin(v)
      case InPlaceMathExpression(_, v, _) => ExpressionsWithin(v)
      case AssignmentExpression(_, v) => ExpressionsWithin(v)
      case LogicalExpression(_, a, b) => ExpressionsWithin(a) + ExpressionsWithin(b)
      case MathExpression(_, a, b) => ExpressionsWithin(a) + ExpressionsWithin(b)
      case PosessiveExpression(_, o) => ExpressionsWithin(o)
      case InvocationExpression(_, ps) => ExpressionsWithinAll(ps)
      case _ => []
  }

  function ExpressionsWithinAll(es: seq<Expression>): seq<Expression>
  {
    if es == [] then [] else ExpressionsWithin(es[0]) + ExpressionsWithinAll(es[1..])
  }
}
