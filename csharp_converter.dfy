/**
 * The EngLang to C# code generator (`EngLang.LanguageConversion.CSharpConverter`).
 *
 * Expressions, identifiers and the operator tables are pure functions.
 * Statements, paragraphs and paragraph lists are written line by line into
 * an `IndentedStringBuilder`; the methods that do so are proved against the
 * specification functions `StatementLines`, `StatementListLines`,
 * `ParagraphLines` and `ParagraphListLines`, which give the lines written at
 * a given indentation level.
 */
module CSharpConversion {
  import opened Wrappers
  import opened Text
  import opened Ast
  import opened IndentedText

  // ---------------------------------------------------------------------------
  // Identifiers

  /** The names the generator escapes with `@`. */
  predicate IsReservedWord(name: string) {
    name == "byte" || name == "string"
  }

  /** The characters the generator turns into `_`. */
  predicate IsMangledChar(c: char) {
    c == ' ' || c == '-' || c == '(' || c == ')' || c == '\''
  }

  /** The character an identifier has in place of `c`. */
  function IdentifierChar(c: char): char {
    if IsMangledChar(c) then '_' else c
  }

  /** A C# identifier for an EngLang name: a reserved word gets `@`, otherwise each mangled character becomes `_`. */
  function ConvertToIdentifier(name: string): (r: string)
    ensures IsReservedWord(name) ==> r == "@" + name
    ensures !IsReservedWord(name) ==> |r| == |name|
  {
    if IsReservedWord(name) then "@" + name
    else seq(|name|, i requires 0 <= i < |name| => IdentifierChar(name[i]))
  }

  /** The generator's chain of `Replace` calls, one per mangled character, gives the same identifier. */
  lemma ConvertToIdentifierIsReplaceChain(name: string)
    requires !IsReservedWord(name)
    ensures ConvertToIdentifier(name)
            == ReplaceChar(ReplaceChar(ReplaceChar(ReplaceChar(ReplaceChar(name, ' ', '_'), '-', '_'), '(', '_'), ')', '_'), '\'', '_')
  {
  }

  /** The generated identifier contains none of the mangled characters, and converting it again changes nothing. */
  lemma ConvertToIdentifierIdempotent(name: string)
    ensures forall i :: 0 <= i < |ConvertToIdentifier(name)| ==> !IsMangledChar(ConvertToIdentifier(name)[i])
    ensures ConvertToIdentifier(ConvertToIdentifier(name)) == ConvertToIdentifier(name)
  {
    var r := ConvertToIdentifier(name);
    if IsReservedWord(name) {
      assert !IsReservedWord(r);
    }
    var rr := ConvertToIdentifier(r);
    assert |rr| == |r| && forall i :: 0 <= i < |r| ==> rr[i] == r[i];
  }

  /** The names of the owners of `id`, outermost first, followed by its own name. */
  function QualifiedName(id: IdentifierReference): (r: seq<string>)
    ensures |r| >= 1 && r[|r| - 1] == id.name
  {
    (if id.owner.Some? then QualifiedName(id.owner.value) else []) + [id.name]
  }

  function ConvertToIdentifiers(names: seq<string>): (r: seq<string>)
    ensures |r| == |names| && forall i :: 0 <= i < |names| ==> r[i] == ConvertToIdentifier(names[i])
  {
    seq(|names|, i requires 0 <= i < |names| => ConvertToIdentifier(names[i]))
  }

  function ConvertIdentifierReference(id: IdentifierReference): (r: string)
    ensures id.owner.None? <==> |r| == |ConvertToIdentifier(id.name)|
  {
    var identifier := ConvertToIdentifier(id.name);
    if id.owner.Some? then ConvertIdentifierReference(id.owner.value) + "." + identifier else identifier
  }

  /** A reference ends with its own converted name, preceded by a dot exactly when it has an owner. */
  lemma ConvertIdentifierReferenceEndsWithName(id: IdentifierReference)
    ensures var r := ConvertIdentifierReference(id);
            var own := ConvertToIdentifier(id.name);
            |own| <= |r| && r[|r| - |own|..] == own
            && (id.owner.Some? ==> r[|r| - |own| - 1] == '.')
  {
    if id.owner.Some? {
      var outer := ConvertIdentifierReference(id.owner.value);
      var own := ConvertToIdentifier(id.name);
      assert ConvertIdentifierReference(id) == (outer + ".") + own;
    }
  }

  /** A qualified name renders as its converted names, outermost owner first, joined by dots. */
  lemma {:induction false} ConvertIdentifierReferenceJoins(id: IdentifierReference)
    ensures ConvertIdentifierReference(id) == Join(".", ConvertToIdentifiers(QualifiedName(id)))
  {
    if id.owner.Some? {
      var outer := ConvertToIdentifiers(QualifiedName(id.owner.value));
      ConvertIdentifierReferenceJoins(id.owner.value);
      assert ConvertToIdentifiers(QualifiedName(id)) == outer + [ConvertToIdentifier(id.name)];
      JoinSnoc(".", outer, ConvertToIdentifier(id.name));
    }
  }

  /** A type name; a missing name dereferences null. */
  function ConvertTypeIdentifierReference(t: TypeIdentifierReference): (r: Result<string>)
    ensures r.Err? <==> t.name.None?
    ensures r.Err? ==> r.error == NullReferenceException
    ensures r.Ok? ==> |r.value| == |ConvertToIdentifier(t.name.value)| + (if t.isCollection then 2 else 0)
    ensures r.Ok? ==> r.value[..|ConvertToIdentifier(t.name.value)|] == ConvertToIdentifier(t.name.value)
    ensures r.Ok? && t.isCollection ==> r.value[|r.value| - 2..] == "[]"
  {
    if t.name.None? then Err(NullReferenceException)
    else
      var identifier := ConvertToIdentifier(t.name.value);
      Ok(if t.isCollection then identifier + "[]" else identifier)
  }

  /** A type name without owner renders like the identifier of the same name. */
  lemma TypeReferenceAgreesWithIdentifier(name: string)
    ensures ConvertTypeIdentifierReference(TypeIdentifierReference(Some(name), false))
            == Ok(ConvertIdentifierReference(IdentifierReference(name, None)))
  {
  }

  // ---------------------------------------------------------------------------
  // Operators

  function LogicalOperatorText(op: LogicalOperator): (r: Result<string>)
    ensures r.Ok? <==> op != Invalid
    ensures r.Err? ==> r.error == NotImplementedException
  {
    match op
    case Equals => Ok("==")
    case NotEquals => Ok("!=")
    case Less => Ok("<")
    case LessOrEquals => Ok("<=")
    case Greater => Ok(">")
    case GreaterOrEquals => Ok(">=")
    case Invalid => Err(NotImplementedException)
  }

  /** The six comparison operators get six different C# operators. */
  lemma LogicalOperatorTextInjective(a: LogicalOperator, b: LogicalOperator)
    requires LogicalOperatorText(a).Ok? && LogicalOperatorText(b).Ok?
    ensures LogicalOperatorText(a) == LogicalOperatorText(b) <==> a == b
  {
  }

  function MathOperatorText(op: MathOperator): (r: string)
    ensures |r| == 1
  {
    match op
    case Plus => "+"
    case Minus => "-"
    case Multiply => "*"
    case Divide => "/"
    case Concat => "+"
  }

  /** Two arithmetic operators print alike exactly when they are equal or are `Plus` and `Concat`. */
  lemma MathOperatorTextCollision(a: MathOperator, b: MathOperator)
    ensures MathOperatorText(a) == MathOperatorText(b) <==> a == b || ((a == Plus || a == Concat) && (b == Plus || b == Concat))
  {
  }

  // ---------------------------------------------------------------------------
  // Expressions

  function ByteTexts(bytes: seq<Byte>): (r: seq<string>)
    ensures |r| == |bytes| && forall i :: 0 <= i < |bytes| ==> r[i] == IntToString(bytes[i])
  {
    seq(|bytes|, i requires 0 <= i < |bytes| => IntToString(bytes[i]))
  }

  function ConvertExpression(e: Expression): (r: Result<string>)
    ensures r.Err? ==> r.error == NotImplementedException
  {
    match e
    case IntLiteralExpression(v) => Ok(IntToString(v))
    case StringLiteralExpression(s) => Ok("\"" + s + "\"")
    case InchLiteralExpression(_, display) => Ok(display)
    case RatioLiteralExpression(n, d) => Ok(IntToString(n) + " / " + IntToString(d))
    case NullLiteralExpression => Ok("null")
    case ByteArrayLiteralExpression(bytes) => Ok("new byte[] { " + Join(", ", ByteTexts(bytes)) + " }")
    case VariableExpression(id) => Ok(ConvertIdentifierReference(id))
    case InPlaceAdditionExpression(v, target) =>
      var x :- ConvertExpression(v);
      Ok(ConvertIdentifierReference(target) + " += " + x)
    case InPlaceSubtractExpression(v, target) =>
      var x :- ConvertExpression(v);
      Ok(ConvertIdentifierReference(target) + " -= " + x)
    case InPlaceMultiplyExpression(v, target) =>
      var x :- ConvertExpression(v);
      Ok(ConvertIdentifierReference(target) + " *= " + x)
    case InPlaceDivisionExpression(v, target) =>
      var x :- ConvertExpression(v);
      Ok(ConvertIdentifierReference(target) + " /= " + x)
    case InPlaceMathExpression(_, _, _) => Err(NotImplementedException)
    case AssignmentExpression(id, v) =>
      var x :- ConvertExpression(v);
      Ok(ConvertIdentifierReference(id) + " = " + x)
    case InvalidExpression(code) => Ok("/* " + code + " */")
    case LogicalExpression(op, a, b) =>
      var x :- ConvertExpression(a);
      var o :- LogicalOperatorText(op);
      var y :- ConvertExpression(b);
      Ok(x + " " + o + " " + y)
    case MathExpression(op, a, b) =>
      var x :- ConvertExpression(a);
      var y :- ConvertExpression(b);
      Ok(x + " " + MathOperatorText(op) + " " + y)
    case PosessiveExpression(id, owner) =>
      var o :- ConvertExpression(owner);
      Ok(o + "." + ConvertIdentifierReference(id))
    case InvocationExpression(marker, ps) =>
      var xs :- ConvertExpressions(ps);
      Ok(marker + "(" + Join(", ", xs) + ")")
  }

  /** The expressions converted in order; the first failure is the result. */
  function ConvertExpressions(es: seq<Expression>): (r: Result<seq<string>>)
    ensures r.Ok? ==> |r.value| == |es|
    ensures r.Err? ==> r.error == NotImplementedException
  {
    if es == [] then Ok([])
    else
      var x :- ConvertExpression(es[0]);
      var xs :- ConvertExpressions(es[1..]);
      Ok([x] + xs)
  }

  /** The expression kinds the generator handles itself (its sub-expressions aside). */
  predicate IsConvertible(e: Expression) {
    !e.InPlaceMathExpression? && !(e.LogicalExpression? && e.logicalOperator == Invalid)
  }

  /** An expression converts exactly when it and every expression nested in it is of a handled kind. */
  lemma {:induction false} ConvertExpressionSucceedsIff(e: Expression)
    ensures ConvertExpression(e).Ok? <==> forall x :: x in ExpressionsWithin(e) ==> IsConvertible(x)
    decreases e, 1
  {
    if e.InPlaceMathExpression? {
      assert e in ExpressionsWithin(e);
    } else if e.LogicalExpression? || e.MathExpression? {
      BinaryConvertSucceedsIff(e);
    } else if e.InvocationExpression? {
      assert ExpressionsWithin(e) == [e] + ExpressionsWithinAll(e.parameters);
      ConvertExpressionsSucceedIff(e.parameters);
    } else if IsUnary(e) {
      UnaryConvertSucceedsIff(e);
    }
  }

  /** The expression kinds with exactly one sub-expression. */
  predicate IsUnary(e: Expression) {
    e.InPlaceAdditionExpression? || e.InPlaceSubtractExpression? || e.InPlaceMultiplyExpression?
    || e.InPlaceDivisionExpression? || e.AssignmentExpression? || e.PosessiveExpression?
  }

  function Operand(e: Expression): (r: Expression)
    requires IsUnary(e)
    ensures r < e
  {
    match e
    case InPlaceAdditionExpression(v, _) => v
    case InPlaceSubtractExpression(v, _) => v
    case InPlaceMultiplyExpression(v, _) => v
    case InPlaceDivisionExpression(v, _) => v
    case AssignmentExpression(_, v) => v
    case PosessiveExpression(_, v) => v
  }

  lemma {:induction false} UnaryConvertSucceedsIff(e: Expression)
    requires IsUnary(e)
    ensures ConvertExpression(e).Ok? <==> forall x :: x in ExpressionsWithin(e) ==> IsConvertible(x)
    decreases e, 0
  {
    var v := Operand(e);
    ConvertExpressionSucceedsIff(v);
    assert ExpressionsWithin(e) == [e] + ExpressionsWithin(v);
    assert ConvertExpression(e).Ok? <==> ConvertExpression(v).Ok?;
  }

  lemma {:induction false} BinaryConvertSucceedsIff(e: Expression)
    requires e.LogicalExpression? || e.MathExpression?
    ensures ConvertExpression(e).Ok? <==> forall x :: x in ExpressionsWithin(e) ==> IsConvertible(x)
    decreases e, 0
  {
    var a, b := e.firstOperand, e.secondOperand;
    ConvertExpressionSucceedsIff(a);
    ConvertExpressionSucceedsIff(b);
    var within := ExpressionsWithin(a) + ExpressionsWithin(b);
    assert ExpressionsWithin(e) == [e] + within;
    ConvertibleConcat(ExpressionsWithin(a), ExpressionsWithin(b));
    ConvertibleConcat([e], within);
    BinaryConvertOk(e);
    calc {
      ConvertExpression(e).Ok?;
      ConvertExpression(a).Ok? && IsConvertible(e) && ConvertExpression(b).Ok?;
      AllConvertible(ExpressionsWithin(a)) && IsConvertible(e) && AllConvertible(ExpressionsWithin(b));
      AllConvertible([e] + within);
    }
  }

  predicate AllConvertible(xs: seq<Expression>) {
    forall x :: x in xs ==> IsConvertible(x)
  }

  /** A binary expression converts when its operands do and, for a comparison, its operator is valid. */
  lemma BinaryConvertOk(e: Expression)
    requires e.LogicalExpression? || e.MathExpression?
    ensures ConvertExpression(e).Ok? <==>
            ConvertExpression(e.firstOperand).Ok? && IsConvertible(e) && ConvertExpression(e.secondOperand).Ok?
  {
  }

  lemma ConvertibleConcat(xs: seq<Expression>, ys: seq<Expression>)
    ensures AllConvertible(xs + ys) <==> AllConvertible(xs) && AllConvertible(ys)
  {
  }

  lemma {:induction false} ConvertExpressionsSucceedIff(es: seq<Expression>)
    ensures ConvertExpressions(es).Ok? <==> forall x :: x in ExpressionsWithinAll(es) ==> IsConvertible(x)
  {
    if es != [] {
      ConvertExpressionSucceedsIff(es[0]);
      ConvertExpressionsSucceedIff(es[1..]);
    }
  }

  /** An integer literal is written in a form that `int.Parse` reads back to the same value. */
  lemma IntLiteralRoundTrip(v: Int32)
    ensures ConvertExpression(IntLiteralExpression(v)).Ok?
    ensures ParseInt32(ConvertExpression(IntLiteralExpression(v)).value) == Ok(v)
  {
    ParseIntToString(v);
  }

  /** The literal kinds have a C# type; every other expression kind throws. */
  function GetExpressionType(e: Expression): (r: Result<string>)
    ensures r.Ok? <==> IsLiteral(e)
    ensures r.Err? ==> r.error == NotImplementedException
  {
    match e
    case IntLiteralExpression(_) => Ok("long")
    case StringLiteralExpression(_) => Ok("string")
    case InchLiteralExpression(_, _) => Ok("long")
    case RatioLiteralExpression(_, _) => Ok("double")
    case NullLiteralExpression => Ok("object")
    case ByteArrayLiteralExpression(_) => Ok("byte[]")
    case _ => Err(NotImplementedException)
  }

  predicate IsLiteral(e: Expression) {
    e.IntLiteralExpression? || e.StringLiteralExpression? || e.InchLiteralExpression?
    || e.RatioLiteralExpression? || e.NullLiteralExpression? || e.ByteArrayLiteralExpression?
  }

  /** Every expression that has a C# type also converts, so a typed constant never fails on its value. */
  lemma TypedExpressionConverts(e: Expression)
    ensures GetExpressionType(e).Ok? ==> ConvertExpression(e).Ok?
  {
  }

  // ---------------------------------------------------------------------------
  // Declarations built with a StringBuilder

  /** The text of a variable declaration: type, space, name, and ` = ` with the initializer when there is one. */
  function VariableDeclarationText(d: VariableDeclaration): (r: Result<string>)
  {
    var typeText :- ConvertTypeIdentifierReference(d.typeName);
    var head := typeText + " " + ConvertToIdentifier(d.name);
    if d.expression.None? then Ok(head)
    else
      var value :- ConvertExpression(d.expression.value);
      Ok(head + " = " + value)
  }

  method ConvertVariableDeclaration(d: VariableDeclaration) returns (r: Result<string>)
    ensures r == VariableDeclarationText(d)
  {
    var result := "";
    var typeText :- ConvertTypeIdentifierReference(d.typeName);
    result := result + typeText;
    result := result + " ";
    result := result + ConvertToIdentifier(d.name);
    assert result == typeText + " " + ConvertToIdentifier(d.name);
    if d.expression.Some? {
      result := result + " = ";
      var value :- ConvertExpression(d.expression.value);
      result := result + value;
    }
    return Ok(result);
  }

  /** A string in which every two spaces are more than two characters apart does not contain `" = "` or `" : "`. */
  lemma SpacesApartNoOperator(s: string, op: char)
    requires forall i, j :: 0 <= i < j < |s| && s[i] == ' ' && s[j] == ' ' ==> j - i != 2
    ensures !Occurs(s, [' ', op, ' '])
  {
    forall j | 0 <= j <= |s| ensures !OccursAt(s, [' ', op, ' '], j) {
      if j + 3 <= |s| {
        assert s[j..j + 3][0] == s[j] && s[j..j + 3][2] == s[j + 2];
      }
    }
  }

  /** A converted declaration contains `" = "` exactly when it has an initializer, and starts with its type and name. */
  lemma VariableDeclarationInitializerIff(d: VariableDeclaration)
    ensures VariableDeclarationText(d).Ok? ==>
              (Occurs(VariableDeclarationText(d).value, " = ") <==> d.expression.Some?)
    ensures VariableDeclarationText(d).Ok? ==>
              var head := ConvertTypeIdentifierReference(d.typeName).value + " " + ConvertToIdentifier(d.name);
              |head| <= |VariableDeclarationText(d).value| && VariableDeclarationText(d).value[..|head|] == head
  {
    var r := VariableDeclarationText(d);
    if r.Ok? {
      var typeText := ConvertTypeIdentifierReference(d.typeName).value;
      var name := ConvertToIdentifier(d.name);
      var head := typeText + " " + name;
      ConvertToIdentifierIdempotent(d.typeName.name.value);
      ConvertToIdentifierIdempotent(d.name);
      assert forall i :: 0 <= i < |typeText| ==> typeText[i] != ' ';
      assert forall i :: 0 <= i < |head| && head[i] == ' ' ==> i == |typeText| by {
        forall i | 0 <= i < |head| && head[i] == ' ' ensures i == |typeText| {
        }
      }
      SpacesApartNoOperator(head, '=');
      if d.expression.Some? {
        assert OccursAt(r.value, " = ", |head|);
      }
      assert r.value[..|head|] == head;
    }
  }

  /** The first line of a shape: `public class`, the name, and ` : ` with the base shape's name when there is one. */
  function ShapeHeader(s: ShapeDeclaration): (r: Result<string>)
    ensures r.Err? <==> s.baseShapeName.Some? && s.baseShapeName.value.name.None?
    ensures r.Err? ==> r.error == NullReferenceException
  {
    var header := "public class " + ConvertToIdentifier(s.name);
    match s.baseShapeName
    case None => Ok(header)
    case Some(base) =>
      if base.name.None? then Err(NullReferenceException)
      else Ok(header + " : " + ConvertToIdentifier(base.name.value))
  }

  /** The header mentions a base shape, written ` : `, exactly when the shape has one. */
  lemma ShapeHeaderBaseIff(s: ShapeDeclaration)
    ensures ShapeHeader(s).Ok? ==> (Occurs(ShapeHeader(s).value, " : ") <==> s.baseShapeName.Some?)
  {
    var name := ConvertToIdentifier(s.name);
    var header := "public class " + name;
    ConvertToIdentifierIdempotent(s.name);
    if s.baseShapeName.None? {
      forall i, j | 0 <= i < j < |header| && header[i] == ' ' && header[j] == ' ' ensures j - i != 2 {
        assert i == 6 || i == 12;
        assert j == 6 || j == 12;
      }
      SpacesApartNoOperator(header, ':');
    } else if ShapeHeader(s).Ok? {
      assert OccursAt(ShapeHeader(s).value, " : ", |header|);
    }
  }

  function SlotLine(slot: SlotDeclaration): string {
    "    public object " + ConvertToIdentifier(slot.name) + ";"
  }

  /** One declaration line per slot, in slot order. */
  function SlotLines(slots: seq<SlotDeclaration>): (r: seq<string>)
    ensures |r| == |slots| && forall i :: 0 <= i < |slots| ==> r[i] == SlotLine(slots[i])
  {
    if slots == [] then [] else SlotLines(slots[..|slots| - 1]) + [SlotLine(slots[|slots| - 1])]
  }

  function ShapeSlots(s: ShapeDeclaration): seq<SlotDeclaration> {
    if s.wellKnownSlots.Some? then s.wellKnownSlots.value else []
  }

  /** The text the StringBuilder ends up with: every line but the closing brace ends with a line terminator. */
  function ShapeText(s: ShapeDeclaration): Result<string> {
    var header :- ShapeHeader(s);
    Ok(header + NewLine + "{" + NewLine + Render(SlotLines(ShapeSlots(s))) + "}")
  }

  /** The lines of a shape: header, `{`, one line per slot in slot order, `}`. */
  function ShapeLines(s: ShapeDeclaration): (r: Result<seq<string>>) {
    var header :- ShapeHeader(s);
    Ok([header, "{"] + SlotLines(ShapeSlots(s)) + ["}"])
  }

  /** A shape's text is its lines joined with line terminators, with no terminator after the closing brace. */
  lemma ShapeTextIsJoinedLines(s: ShapeDeclaration)
    ensures ShapeText(s).Ok? <==> ShapeLines(s).Ok?
    ensures ShapeText(s).Ok? ==> ShapeText(s).value == Join(NewLine, ShapeLines(s).value)
  {
    if ShapeHeader(s).Ok? {
      var header := ShapeHeader(s).value;
      var slots := SlotLines(ShapeSlots(s));
      assert [header, "{"] + slots + ["}"] == ([header, "{"] + slots) + ["}"];
      JoinIsRenderThenLast([header, "{"] + slots, "}");
      RenderAppend([header, "{"], slots);
      assert Render([header, "{"]) == header + NewLine + "{" + NewLine;
    }
  }

  method ConvertShapeDeclaration(s: ShapeDeclaration) returns (r: Result<string>)
    ensures r == ShapeText(s)
  {
    var result := "public class ";
    result := result + ConvertToIdentifier(s.name);
    if s.baseShapeName.Some? {
      result := result + " : ";
      if s.baseShapeName.value.name.None? {
        return Err(NullReferenceException);
      }
      result := result + ConvertToIdentifier(s.baseShapeName.value.name.value);
    }
    assert result == ShapeHeader(s).value;
    result := result + NewLine;
    result := result + "{" + NewLine;
    var slotText := ConvertSlots(ShapeSlots(s));
    result := result + slotText;
    result := result + "}";
    return Ok(result);
  }

  /** The slot lines of a shape, in slot order, each followed by a line terminator. */
  method ConvertSlots(slots: seq<SlotDeclaration>) returns (slotText: string)
    ensures slotText == Render(SlotLines(slots))
  {
    slotText := "";
    var i := 0;
    while i < |slots|
      invariant 0 <= i <= |slots|
      invariant slotText == Render(SlotLines(slots[..i]))
    {
      var line := SlotLine(slots[i]);
      assert slots[..i + 1][..i] == slots[..i];
      assert SlotLines(slots[..i + 1]) == SlotLines(slots[..i]) + [line];
      RenderSnoc(SlotLines(slots[..i]), line);
      slotText := slotText + line + NewLine;
      i := i + 1;
    }
    assert slots[..i] == slots;
  }

  // ---------------------------------------------------------------------------
  // Statements, paragraphs and paragraph lists: the lines written at a level

  /** A line written by `AppendLine` at indentation level `indent`. */
  function Line(indent: nat, text: string): string {
    Indentation(indent) + text
  }

  /** The parameter list of a labeled statement: each parameter's name converted to an identifier. */
  function ParameterList(parameters: seq<IdentifierReference>): string {
    Join(", ", seq(|parameters|, i requires 0 <= i < |parameters| => ConvertToIdentifier(parameters[i].name)))
  }

  /** The parameter list of a labeled paragraph: each parameter's name with its spaces turned into `_`. */
  function ParagraphParameterList(parameters: seq<IdentifierReference>): string {
    Join(", ", seq(|parameters|, i requires 0 <= i < |parameters| => ReplaceChar(parameters[i].name, ' ', '_')))
  }

  /** The partial `constants` class wrapping one constant declaration line. */
  function ConstantLines(indent: nat, text: string): seq<string> {
    [Line(indent, "public partial class constants"), Line(indent, "{"), Line(indent + 1, text), Line(indent, "}")]
  }

  /** The body of a constant or unit-alias declaration line, up to the value. */
  function ConstantDeclarationText(id: IdentifierReference, value: Expression): Result<string> {
    var typeText :- GetExpressionType(value);
    var valueText :- ConvertExpression(value);
    Ok("public const " + typeText + " " + ConvertIdentifierReference(id) + " = " + valueText)
  }

  function StatementLines(st: Statement, indent: nat): Result<seq<string>>
    decreases st
  {
    match st
    case BlockStatement(sts) => StatementListLines(sts, indent)
    case VariableDeclarationStatement(d) =>
      var text :- VariableDeclarationText(d);
      Ok([Line(indent, text + ";")])
    case ShapeDeclarationStatement(s) =>
      var text :- ShapeText(s);
      Ok([Line(indent, text)])
    case ExpressionStatement(e) =>
      var text :- ConvertExpression(e);
      Ok([Line(indent, text + ";")])
    case IfStatement(c, body) =>
      var condition :- ConvertExpression(c);
      var inner :- StatementLines(body, indent + 1);
      Ok([Line(indent, "if (" + condition + ") {")] + inner + [Line(indent, "}")])
    case ResultStatement(v) =>
      var text :- ConvertExpression(v);
      Ok([Line(indent, "return " + text + ";")])
    case LabeledStatement(invokable, parameters, body) =>
      if invokable.markers == [] then Err(InvalidOperationException)
      else
        var inner :- StatementLines(body, indent + 1);
        Ok([Line(indent, "void " + ConvertToIdentifier(invokable.markers[0]) + "(" + ParameterList(parameters) + ")"),
            Line(indent, "{")] + inner + [Line(indent, "}")])
    case InvocationStatement(marker, arguments, result) =>
      var texts :- ConvertExpressions(arguments);
      var call := ConvertToIdentifier(marker) + "(" + Join(", ", texts) + ");";
      Ok([Line(indent, if result.Some? then ConvertIdentifierReference(result.value) + " = " + call else call)])
    case PointerDeclarationStatement(pointer, base) =>
      var baseText :- ConvertTypeIdentifierReference(base);
      Ok([Line(indent, "public class " + ConvertIdentifierReference(pointer) + "(" + baseText + " "
                       + ConvertToIdentifier(base.name.value) + "); // pointer")])
    case ConstantDeclarationStatement(id, value) =>
      var text :- ConstantDeclarationText(id, value);
      Ok(ConstantLines(indent, text + ";"))
    case UnitAliasDeclarationStatement(id, value, baseUnit) =>
      var text :- ConstantDeclarationText(id, value);
      Ok(ConstantLines(indent, text + " * " + ConvertIdentifierReference(baseUnit) + ";"))
    case InvalidStatement(tokens) => Ok([Line(indent, "#error " + Join(" ", tokens))])
    case AssignmentStatement(_) => Err(NotImplementedException)
    case ParagraphStatement(p) => ParagraphLines(p, indent)
  }

  /** The statements written one after another; the first failure is the result. */
  function StatementListLines(sts: seq<Statement>, indent: nat): Result<seq<string>>
    decreases sts
  {
    if sts == [] then Ok([])
    else
      var init :- StatementListLines(sts[..|sts| - 1], indent);
      var last :- StatementLines(sts[|sts| - 1], indent);
      Ok(init + last)
  }

  function ParagraphLines(p: Paragraph, indent: nat): Result<seq<string>>
    decreases p
  {
    match p.invokableLabel
    case None => StatementListLines(p.statements, indent)
    case Some(invokable) =>
      if invokable.markers == [] then Err(InvalidOperationException)
      else
        var inner :- StatementListLines(p.statements, indent + 1);
        Ok([Line(indent, "void " + ConvertToIdentifier(invokable.markers[0]) + "(" + ParagraphParameterList(invokable.parameters) + ")"),
            Line(indent, "{")] + inner + [Line(indent, "}")])
  }

  function ParagraphListLines(ps: seq<Paragraph>, indent: nat): Result<seq<string>> {
    if ps == [] then Ok([])
    else
      var init :- ParagraphListLines(ps[..|ps| - 1], indent);
      var last :- ParagraphLines(ps[|ps| - 1], indent);
      Ok(init + last)
  }

  /** Once a prefix of the statements fails, the whole list fails with the same error. */
  lemma {:induction false} StatementListFailurePersists(sts: seq<Statement>, indent: nat, i: nat)
    requires i <= |sts| && StatementListLines(sts[..i], indent).Err?
    ensures StatementListLines(sts, indent) == StatementListLines(sts[..i], indent)
    decreases |sts| - i
  {
    if i == |sts| {
      assert sts[..i] == sts;
    } else {
      assert sts[..i + 1][..i] == sts[..i];
      StatementListFailurePersists(sts, indent, i + 1);
    }
  }

  lemma {:induction false} ParagraphListFailurePersists(ps: seq<Paragraph>, indent: nat, i: nat)
    requires i <= |ps| && ParagraphListLines(ps[..i], indent).Err?
    ensures ParagraphListLines(ps, indent) == ParagraphListLines(ps[..i], indent)
    decreases |ps| - i
  {
    if i == |ps| {
      assert ps[..i] == ps;
    } else {
      assert ps[..i + 1][..i] == ps[..i];
      ParagraphListFailurePersists(ps, indent, i + 1);
    }
  }

  /** Every line one indentation level deeper. */
  function Indented(lines: seq<string>): (r: seq<string>)
    ensures |r| == |lines| && forall i :: 0 <= i < |lines| ==> r[i] == "    " + lines[i]
  {
    seq(|lines|, i requires 0 <= i < |lines| => "    " + lines[i])
  }

  function IndentedResult(r: Result<seq<string>>): Result<seq<string>> {
    match r
    case Ok(lines) => Ok(Indented(lines))
    case Err(e) => Err(e)
  }

  lemma LineShift(indent: nat, text: string)
    ensures Line(indent + 1, text) == "    " + Line(indent, text)
  {
    assert Indentation(indent + 1) == "    " + Indentation(indent);
  }

  lemma SingleLineShift(indent: nat, text: string)
    ensures Indented([Line(indent, text)]) == [Line(indent + 1, text)]
  {
    LineShift(indent, text);
  }

  lemma IndentedAppend(a: seq<string>, b: seq<string>)
    ensures Indented(a + b) == Indented(a) + Indented(b)
  {
  }

  /**
   * The indentation level only prefixes lines: what a statement writes one
   * level deeper is what it writes at its own level, each line indented by
   * four more spaces, and it fails one level deeper exactly when it fails at
   * its own level, with the same exception.
   */
  lemma {:induction false} StatementLinesShift(st: Statement, indent: nat)
    ensures StatementLines(st, indent + 1) == IndentedResult(StatementLines(st, indent))
    decreases st
  {
    match st
    case BlockStatement(sts) => StatementListLinesShift(sts, indent);
    case IfStatement(c, body) =>
      StatementLinesShift(body, indent + 1);
      if ConvertExpression(c).Ok? && StatementLines(body, indent + 1).Ok? {
        var inner := StatementLines(body, indent + 1).value;
        var head := [Line(indent, "if (" + ConvertExpression(c).value + ") {")];
        SingleLineShift(indent, "if (" + ConvertExpression(c).value + ") {");
        SingleLineShift(indent, "}");
        IndentedAppend(head, inner);
        IndentedAppend(head + inner, [Line(indent, "}")]);
        assert StatementLines(st, indent) == Ok(head + inner + [Line(indent, "}")]);
      }
    case LabeledStatement(invokable, parameters, body) =>
      StatementLinesShift(body, indent + 1);
      if invokable.markers != [] && StatementLines(body, indent + 1).Ok? {
        var inner := StatementLines(body, indent + 1).value;
        var head := [Line(indent, "void " + ConvertToIdentifier(invokable.markers[0]) + "(" + ParameterList(parameters) + ")"), Line(indent, "{")];
        LineShift(indent, "void " + ConvertToIdentifier(invokable.markers[0]) + "(" + ParameterList(parameters) + ")");
        LineShift(indent, "{");
        SingleLineShift(indent, "}");
        IndentedAppend(head, inner);
        IndentedAppend(head + inner, [Line(indent, "}")]);
        assert Indented(head) == [Line(indent + 1, "void " + ConvertToIdentifier(invokable.markers[0]) + "(" + ParameterList(parameters) + ")"),
                                  Line(indent + 1, "{")];
        assert StatementLines(st, indent) == Ok(head + inner + [Line(indent, "}")]);
      }
    case ParagraphStatement(p) => ParagraphLinesShift(p, indent);
    case _ => LeafStatementLinesShift(st, indent);
  }

  /** The statements that contain no other statement. */
  predicate IsNesting(st: Statement) {
    st.BlockStatement? || st.IfStatement? || st.LabeledStatement? || st.ParagraphStatement?
  }

  lemma LeafStatementLinesShift(st: Statement, indent: nat)
    requires !IsNesting(st)
    ensures StatementLines(st, indent + 1) == IndentedResult(StatementLines(st, indent))
  {
    match st
    case VariableDeclarationStatement(d) =>
      if VariableDeclarationText(d).Ok? {
        SingleLineShift(indent, VariableDeclarationText(d).value + ";");
      }
    case ShapeDeclarationStatement(s) =>
      if ShapeText(s).Ok? {
        SingleLineShift(indent, ShapeText(s).value);
      }
    case ExpressionStatement(e) =>
      if ConvertExpression(e).Ok? {
        SingleLineShift(indent, ConvertExpression(e).value + ";");
      }
    case ResultStatement(v) =>
      if ConvertExpression(v).Ok? {
        SingleLineShift(indent, "return " + ConvertExpression(v).value + ";");
      }
    case InvocationStatement(marker, arguments, result) =>
      if ConvertExpressions(arguments).Ok? {
        var call := ConvertToIdentifier(marker) + "(" + Join(", ", ConvertExpressions(arguments).value) + ");";
        SingleLineShift(indent, if result.Some? then ConvertIdentifierReference(result.value) + " = " + call else call);
      }
    case PointerDeclarationStatement(pointer, base) =>
      if ConvertTypeIdentifierReference(base).Ok? {
        SingleLineShift(indent, "public class " + ConvertIdentifierReference(pointer) + "(" + ConvertTypeIdentifierReference(base).value + " "
                          + ConvertToIdentifier(base.name.value) + "); // pointer");
      }
    case ConstantDeclarationStatement(id, value) =>
      if ConstantDeclarationText(id, value).Ok? {
        ConstantLinesShift(indent, ConstantDeclarationText(id, value).value + ";");
      }
    case UnitAliasDeclarationStatement(id, value, baseUnit) =>
      if ConstantDeclarationText(id, value).Ok? {
        ConstantLinesShift(indent, ConstantDeclarationText(id, value).value + " * " + ConvertIdentifierReference(baseUnit) + ";");
      }
    case InvalidStatement(tokens) => SingleLineShift(indent, "#error " + Join(" ", tokens));
    case AssignmentStatement(_) =>
  }

  lemma ConstantLinesShift(indent: nat, text: string)
    ensures ConstantLines(indent + 1, text) == Indented(ConstantLines(indent, text))
  {
    LineShift(indent, "public partial class constants");
    LineShift(indent, "{");
    LineShift(indent + 1, text);
    LineShift(indent, "}");
  }

  lemma {:induction false} StatementListLinesShift(sts: seq<Statement>, indent: nat)
    ensures StatementListLines(sts, indent + 1) == IndentedResult(StatementListLines(sts, indent))
    decreases sts
  {
    if sts != [] {
      StatementListLinesShift(sts[..|sts| - 1], indent);
      StatementLinesShift(sts[|sts| - 1], indent);
      if StatementListLines(sts[..|sts| - 1], indent).Ok? && StatementLines(sts[|sts| - 1], indent).Ok? {
        IndentedAppend(StatementListLines(sts[..|sts| - 1], indent).value, StatementLines(sts[|sts| - 1], indent).value);
      }
    }
  }

  lemma {:induction false} ParagraphLinesShift(p: Paragraph, indent: nat)
    ensures ParagraphLines(p, indent + 1) == IndentedResult(ParagraphLines(p, indent))
    decreases p
  {
    match p.invokableLabel
    case None => StatementListLinesShift(p.statements, indent);
    case Some(invokable) =>
      StatementListLinesShift(p.statements, indent + 1);
      if invokable.markers != [] && StatementListLines(p.statements, indent + 1).Ok? {
        var inner := StatementListLines(p.statements, indent + 1).value;
        var signature := "void " + ConvertToIdentifier(invokable.markers[0]) + "(" + ParagraphParameterList(invokable.parameters) + ")";
        var head := [Line(indent, signature), Line(indent, "{")];
        var deeper := [Line(indent + 1, signature), Line(indent + 1, "{")] + Indented(inner) + [Line(indent + 1, "}")];
        BracedBlockShift(indent, signature, inner);
        assert ParagraphLines(p, indent) == Ok(head + inner + [Line(indent, "}")]);
        assert ParagraphLines(p, indent + 1) == Ok(deeper);
      }
  }

  /** A signature line with a braced body, indented, is the same block one level deeper around the indented body. */
  lemma BracedBlockShift(indent: nat, signature: string, inner: seq<string>)
    ensures Indented([Line(indent, signature), Line(indent, "{")] + inner + [Line(indent, "}")])
            == [Line(indent + 1, signature), Line(indent + 1, "{")] + Indented(inner) + [Line(indent + 1, "}")]
  {
    var head := [Line(indent, signature), Line(indent, "{")];
    LineShift(indent, signature);
    LineShift(indent, "{");
    IndentedAppend(head, inner);
    IndentedAppend(head + inner, [Line(indent, "}")]);
    SingleLineShift(indent, "}");
    assert Indented(head) == [Line(indent + 1, signature), Line(indent + 1, "{")];
  }

  // ---------------------------------------------------------------------------
  // Writing into the builder

  method ConvertStatement(builder: IndentedStringBuilder, st: Statement) returns (r: Outcome)
    modifies builder
    decreases st, 1
    ensures r.Pass? <==> StatementLines(st, old(builder.indent)).Ok?
    ensures r.Fail? ==> r.error == StatementLines(st, old(builder.indent)).error
    ensures r.Pass? ==> builder.indent == old(builder.indent)
    ensures r.Pass? ==> builder.lines == old(builder.lines) + StatementLines(st, old(builder.indent)).value
  {
    match st {
      case BlockStatement(sts) =>
        r := ConvertStatementList(builder, sts);
      case IfStatement(_, _) =>
        r := ConvertIfStatement(builder, st);
      case LabeledStatement(_, _, _) =>
        r := ConvertLabeledStatement(builder, st);
      case ParagraphStatement(p) =>
        r := ConvertParagraph(builder, p);
      case _ =>
        r := ConvertLeafStatement(builder, st);
    }
  }

  method ConvertIfStatement(builder: IndentedStringBuilder, st: Statement) returns (r: Outcome)
    requires st.IfStatement?
    modifies builder
    decreases st, 0
    ensures r.Pass? <==> StatementLines(st, old(builder.indent)).Ok?
    ensures r.Fail? ==> r.error == StatementLines(st, old(builder.indent)).error
    ensures r.Pass? ==> builder.indent == old(builder.indent)
    ensures r.Pass? ==> builder.lines == old(builder.lines) + StatementLines(st, old(builder.indent)).value
  {
    var indent := builder.indent;
    ghost var before := builder.lines;
    var condition := ConvertExpression(st.condition);
    if condition.Err? {
      return Fail(condition.error);
    }
    ghost var head := Line(indent, "if (" + condition.value + ") {");
    builder.AppendLine("if (" + condition.value + ") {");
    builder.PushIndent();
    r := ConvertStatement(builder, st.body);
    if r.Fail? {
      return;
    }
    ghost var inner := StatementLines(st.body, indent + 1).value;
    assert builder.lines == before + [head] + inner;
    builder.PopIndent();
    builder.AppendLine("}");
    assert StatementLines(st, indent) == Ok([head] + inner + [Line(indent, "}")]);
    assert builder.lines == before + ([head] + inner + [Line(indent, "}")]);
  }

  method ConvertLabeledStatement(builder: IndentedStringBuilder, st: Statement) returns (r: Outcome)
    requires st.LabeledStatement?
    modifies builder
    decreases st, 0
    ensures r.Pass? <==> StatementLines(st, old(builder.indent)).Ok?
    ensures r.Fail? ==> r.error == StatementLines(st, old(builder.indent)).error
    ensures r.Pass? ==> builder.indent == old(builder.indent)
    ensures r.Pass? ==> builder.lines == old(builder.lines) + StatementLines(st, old(builder.indent)).value
  {
    var indent := builder.indent;
    ghost var before := builder.lines;
    var parameterList := ParameterList(st.parameters);
    if st.invokableLabel.markers == [] {
      return Fail(InvalidOperationException);
    }
    var signature := "void " + ConvertToIdentifier(st.invokableLabel.markers[0]) + "(" + parameterList + ")";
    builder.AppendLine(signature);
    builder.OpenBraces();
    ghost var head := [Line(indent, signature), Line(indent, "{")];
    assert builder.lines == before + head;
    r := ConvertStatement(builder, st.body);
    if r.Fail? {
      return;
    }
    ghost var inner := StatementLines(st.body, indent + 1).value;
    assert builder.lines == before + head + inner;
    builder.CloseBraces();
    assert StatementLines(st, indent) == Ok(head + inner + [Line(indent, "}")]);
    assert builder.lines == before + (head + inner + [Line(indent, "}")]);
  }

  /** The statements that contain no other statement: each writes a fixed number of lines. */
  method ConvertLeafStatement(builder: IndentedStringBuilder, st: Statement) returns (r: Outcome)
    requires !IsNesting(st)
    modifies builder
    ensures r.Pass? <==> StatementLines(st, old(builder.indent)).Ok?
    ensures r.Fail? ==> r.error == StatementLines(st, old(builder.indent)).error
    ensures r.Pass? ==> builder.indent == old(builder.indent)
    ensures r.Pass? ==> builder.lines == old(builder.lines) + StatementLines(st, old(builder.indent)).value
  {
    match st {
      case VariableDeclarationStatement(d) =>
        var text := ConvertVariableDeclaration(d);
        if text.Err? {
          return Fail(text.error);
        }
        builder.AppendLine(text.value + ";");
        return Pass;
      case ShapeDeclarationStatement(s) =>
        var text := ConvertShapeDeclaration(s);
        if text.Err? {
          return Fail(text.error);
        }
        builder.AppendLine(text.value);
        return Pass;
      case ExpressionStatement(e) =>
        var text := ConvertExpression(e);
        if text.Err? {
          return Fail(text.error);
        }
        builder.AppendLine(text.value + ";");
        return Pass;
      case ResultStatement(v) =>
        var text := ConvertExpression(v);
        if text.Err? {
          return Fail(text.error);
        }
        builder.AppendLine("return " + text.value + ";");
        return Pass;
      case InvocationStatement(marker, arguments, result) =>
        var texts := ConvertExpressions(arguments);
        if texts.Err? {
          return Fail(texts.error);
        }
        var call := ConvertToIdentifier(marker) + "(" + Join(", ", texts.value) + ");";
        if result.Some? {
          builder.AppendLine(ConvertIdentifierReference(result.value) + " = " + call);
          return Pass;
        }
        builder.AppendLine(call);
        return Pass;
      case PointerDeclarationStatement(pointer, base) =>
        var baseText := ConvertTypeIdentifierReference(base);
        if baseText.Err? {
          return Fail(baseText.error);
        }
        builder.AppendLine("public class " + ConvertIdentifierReference(pointer) + "(" + baseText.value + " "
                           + ConvertToIdentifier(base.name.value) + "); // pointer");
        return Pass;
      case ConstantDeclarationStatement(_, _) =>
        r := ConvertConstantStatement(builder, st);
      case UnitAliasDeclarationStatement(_, _, _) =>
        r := ConvertConstantStatement(builder, st);
      case InvalidStatement(tokens) =>
        builder.AppendLine("#error " + Join(" ", tokens));
        return Pass;
      case AssignmentStatement(_) =>
        return Fail(NotImplementedException);
    }
  }

  /** A constant or a unit alias: its declaration inside the partial `constants` class. */
  method ConvertConstantStatement(builder: IndentedStringBuilder, st: Statement) returns (r: Outcome)
    requires st.ConstantDeclarationStatement? || st.UnitAliasDeclarationStatement?
    modifies builder
    ensures r.Pass? <==> StatementLines(st, old(builder.indent)).Ok?
    ensures r.Fail? ==> r.error == StatementLines(st, old(builder.indent)).error
    ensures r.Pass? ==> builder.indent == old(builder.indent)
    ensures r.Pass? ==> builder.lines == old(builder.lines) + StatementLines(st, old(builder.indent)).value
  {
    match st {
      case ConstantDeclarationStatement(id, value) =>
        builder.AppendLine("public partial class constants");
        builder.OpenBraces();
        var declaration := ConstantDeclarationText(id, value);
        if declaration.Err? {
          return Fail(declaration.error);
        }
        builder.AppendLine(declaration.value + ";");
        builder.CloseBraces();
        return Pass;
      case UnitAliasDeclarationStatement(id, value, baseUnit) =>
        builder.AppendLine("public partial class constants");
        builder.OpenBraces();
        var declaration := ConstantDeclarationText(id, value);
        if declaration.Err? {
          return Fail(declaration.error);
        }
        builder.AppendLine(declaration.value + " * " + ConvertIdentifierReference(baseUnit) + ";");
        builder.CloseBraces();
        return Pass;
    }
  }

  /** The `foreach` over a block's or a paragraph's statements. */
  method ConvertStatementList(builder: IndentedStringBuilder, sts: seq<Statement>) returns (r: Outcome)
    modifies builder
    decreases sts
    ensures r.Pass? <==> StatementListLines(sts, old(builder.indent)).Ok?
    ensures r.Fail? ==> r.error == StatementListLines(sts, old(builder.indent)).error
    ensures r.Pass? ==> builder.indent == old(builder.indent)
    ensures r.Pass? ==> builder.lines == old(builder.lines) + StatementListLines(sts, old(builder.indent)).value
  {
    var indent := builder.indent;
    var i := 0;
    while i < |sts|
      invariant 0 <= i <= |sts|
      invariant builder.indent == indent
      invariant StatementListLines(sts[..i], indent).Ok?
      invariant builder.lines == old(builder.lines) + StatementListLines(sts[..i], indent).value
    {
      assert sts[..i + 1][..i] == sts[..i];
      r := ConvertStatement(builder, sts[i]);
      if r.Fail? {
        StatementListFailurePersists(sts, indent, i + 1);
        return;
      }
      i := i + 1;
    }
    assert sts[..i] == sts;
    return Pass;
  }

  method ConvertParagraph(builder: IndentedStringBuilder, p: Paragraph) returns (r: Outcome)
    modifies builder
    decreases p, 1
    ensures r.Pass? <==> ParagraphLines(p, old(builder.indent)).Ok?
    ensures r.Fail? ==> r.error == ParagraphLines(p, old(builder.indent)).error
    ensures r.Pass? ==> builder.indent == old(builder.indent)
    ensures r.Pass? ==> builder.lines == old(builder.lines) + ParagraphLines(p, old(builder.indent)).value
  {
    if p.invokableLabel.None? {
      r := ConvertStatementList(builder, p.statements);
    } else {
      r := ConvertLabeledParagraph(builder, p);
    }
  }

  /** A labeled paragraph becomes a `void` method named after its first marker. */
  method ConvertLabeledParagraph(builder: IndentedStringBuilder, p: Paragraph) returns (r: Outcome)
    requires p.invokableLabel.Some?
    modifies builder
    decreases p, 0
    ensures r.Pass? <==> ParagraphLines(p, old(builder.indent)).Ok?
    ensures r.Fail? ==> r.error == ParagraphLines(p, old(builder.indent)).error
    ensures r.Pass? ==> builder.indent == old(builder.indent)
    ensures r.Pass? ==> builder.lines == old(builder.lines) + ParagraphLines(p, old(builder.indent)).value
  {
    var invokable := p.invokableLabel.value;
    var indent := builder.indent;
    ghost var before := builder.lines;
    if invokable.markers == [] {
      return Fail(InvalidOperationException);
    }
    var signature := "void " + ConvertToIdentifier(invokable.markers[0]) + "(" + ParagraphParameterList(invokable.parameters) + ")";
    builder.AppendLine(signature);
    builder.OpenBraces();
    ghost var head := [Line(indent, signature), Line(indent, "{")];
    assert builder.lines == before + head;
    r := ConvertStatementList(builder, p.statements);
    if r.Fail? {
      return;
    }
    ghost var inner := StatementListLines(p.statements, indent + 1).value;
    assert builder.lines == before + head + inner;
    builder.CloseBraces();
    assert ParagraphLines(p, indent) == Ok(head + inner + [Line(indent, "}")]);
    assert builder.lines == before + (head + inner + [Line(indent, "}")]);
  }

  method ConvertParagraphList(builder: IndentedStringBuilder, ps: seq<Paragraph>) returns (r: Outcome)
    modifies builder
    ensures r.Pass? <==> ParagraphListLines(ps, old(builder.indent)).Ok?
    ensures r.Fail? ==> r.error == ParagraphListLines(ps, old(builder.indent)).error
    ensures r.Pass? ==> builder.indent == old(builder.indent)
    ensures r.Pass? ==> builder.lines == old(builder.lines) + ParagraphListLines(ps, old(builder.indent)).value
  {
    var indent := builder.indent;
    var i := 0;
    while i < |ps|
      invariant 0 <= i <= |ps|
      invariant builder.indent == indent
      invariant ParagraphListLines(ps[..i], indent).Ok?
      invariant builder.lines == old(builder.lines) + ParagraphListLines(ps[..i], indent).value
    {
      assert ps[..i + 1][..i] == ps[..i];
      r := ConvertParagraph(builder, ps[i]);
      if r.Fail? {
        ParagraphListFailurePersists(ps, indent, i + 1);
        return;
      }
      i := i + 1;
    }
    assert ps[..i] == ps;
    return Pass;
  }

  // ---------------------------------------------------------------------------
  // The entry point

  /** What `Convert` returns for each kind of node. */
  function ConvertNode(node: SyntaxNode): (r: Result<string>) {
    match node
    case ParagraphListNode(ps) =>
      var lines :- ParagraphListLines(ps, 0);
      Ok(Render(lines))
    case StatementNode(st) =>
      var lines :- StatementLines(st, 0);
      Ok(Render(lines))
    case ExpressionNode(e) => ConvertExpression(e)
    case VariableDeclarationNode(d) => VariableDeclarationText(d)
    case ShapeDeclarationNode(s) => ShapeText(s)
    case IdentifierReferenceNode(id) => Ok(ConvertIdentifierReference(id))
    case TypeIdentifierReferenceNode(t) => ConvertTypeIdentifierReference(t)
    case _ => Err(NotImplementedException)
  }

  method Convert(node: SyntaxNode) returns (r: Result<string>)
    ensures r == ConvertNode(node)
  {
    var builder := new IndentedStringBuilder();
    match node {
      case ParagraphListNode(ps) =>
        var outcome := ConvertParagraphList(builder, ps);
        if outcome.Fail? {
          return Err(outcome.error);
        }
        assert builder.lines == ParagraphListLines(ps, 0).value;
        return Ok(builder.ToString());
      case StatementNode(st) =>
        var outcome := ConvertStatement(builder, st);
        if outcome.Fail? {
          return Err(outcome.error);
        }
        assert builder.lines == StatementLines(st, 0).value;
        return Ok(builder.ToString());
      case ExpressionNode(e) =>
        return ConvertExpression(e);
      case VariableDeclarationNode(d) =>
        r := ConvertVariableDeclaration(d);
      case ShapeDeclarationNode(s) =>
        r := ConvertShapeDeclaration(s);
      case IdentifierReferenceNode(id) =>
        return Ok(ConvertIdentifierReference(id));
      case TypeIdentifierReferenceNode(t) =>
        return ConvertTypeIdentifierReference(t);
      case SlotDeclarationNode(_) =>
        return Err(NotImplementedException);
      case InvokableLabelNode(_) =>
        return Err(NotImplementedException);
      case CommentLabelNode(_) =>
        return Err(NotImplementedException);
    }
  }
}
