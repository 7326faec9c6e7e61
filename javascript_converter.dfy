/**
 * The EngLang to JavaScript code generator
 * (`EngLang.LanguageConversion.JavaScriptConverter`).
 *
 * Expressions, identifiers and operators are pure functions. A statement is
 * converted to one string; a block's statements are appended one per line
 * to a `StringBuilder`, which `ConvertStatement` models with a loop proved
 * against `StatementText`.
 */
module JavaScriptConversion {
  import opened Wrappers
  import opened Text
  import opened Ast
  import CSharp = CSharpConversion

  // ---------------------------------------------------------------------------
  // Identifiers and operators

  /** A JavaScript identifier: spaces become `_`, nothing else changes. */
  function ConvertToIdentifier(name: string): (r: string)
    ensures |r| == |name|
    ensures forall i :: 0 <= i < |r| ==> r[i] == (if name[i] == ' ' then '_' else name[i])
    ensures forall i :: 0 <= i < |r| ==> r[i] != ' '
  {
    ReplaceChar(name, ' ', '_')
  }

  /** Where the C# generator has nothing more to escape, both generators agree on an identifier. */
  lemma IdentifierAgreesWithCSharp(name: string)
    requires !CSharp.IsReservedWord(name)
    requires forall i :: 0 <= i < |name| ==> name[i] == ' ' || !CSharp.IsMangledChar(name[i])
    ensures ConvertToIdentifier(name) == CSharp.ConvertToIdentifier(name)
  {
    var r, c := ConvertToIdentifier(name), CSharp.ConvertToIdentifier(name);
    assert |r| == |c| && forall i :: 0 <= i < |r| ==> r[i] == c[i];
  }

  /** A reserved C# word is left alone here, where the C# generator escapes it. */
  lemma ReservedWordNotEscaped(name: string)
    requires CSharp.IsReservedWord(name)
    ensures ConvertToIdentifier(name) == name
    ensures CSharp.ConvertToIdentifier(name) == "@" + name
  {
    assert ConvertToIdentifier(name) == name;
  }

  /** Only `==`, `<` and `>` have a JavaScript form. */
  function LogicalOperatorText(op: LogicalOperator): (r: Result<string>)
    ensures r.Ok? <==> op == Equals || op == Less || op == Greater
    ensures r.Err? ==> r.error == NotImplementedException
  {
    match op
    case Equals => Ok("==")
    case Less => Ok("<")
    case Greater => Ok(">")
    case _ => Err(NotImplementedException)
  }

  /** String concatenation has no JavaScript form. */
  function MathOperatorText(op: MathOperator): (r: Result<string>)
    ensures r.Ok? <==> op != Concat
    ensures r.Err? ==> r.error == NotImplementedException
  {
    match op
    case Plus => Ok("+")
    case Minus => Ok("-")
    case Multiply => Ok("*")
    case Divide => Ok("/")
    case Concat => Err(NotImplementedException)
  }

  /** Where both generators write an operator, they write the same text. */
  lemma OperatorsAgreeWithCSharp(lop: LogicalOperator, mop: MathOperator)
    ensures LogicalOperatorText(lop).Ok? ==> CSharp.LogicalOperatorText(lop) == LogicalOperatorText(lop)
    ensures MathOperatorText(mop).Ok? ==> CSharp.MathOperatorText(mop) == MathOperatorText(mop).value
  {
  }

  // ---------------------------------------------------------------------------
  // Expressions

  /**
   * Identifiers are written by their own name only; an owner is dropped. An
   * `InvalidExpression` is a logical expression whose operands are null, so
   * converting its first operand reaches the unsupported-expression error.
   */
  function ConvertExpression(e: Expression): (r: Result<string>)
    ensures r.Err? ==> r.error == NotImplementedException
  {
    match e
    case IntLiteralExpression(v) => Ok(IntToString(v))
    case StringLiteralExpression(s) => Ok("\"" + s + "\"")
    case VariableExpression(id) => Ok(ConvertToIdentifier(id.name))
    case InPlaceAdditionExpression(v, target) =>
      var x :- ConvertExpression(v);
      Ok(ConvertToIdentifier(target.name) + " += " + x)
    case InPlaceSubtractExpression(v, target) =>
      var x :- ConvertExpression(v);
      Ok(ConvertToIdentifier(target.name) + " -= " + x)
    case InPlaceMultiplyExpression(v, target) =>
      var x :- ConvertExpression(v);
      Ok(ConvertToIdentifier(target.name) + " *= " + x)
    case InPlaceDivisionExpression(v, target) =>
      var x :- ConvertExpression(v);
      Ok(ConvertToIdentifier(target.name) + " /= " + x)
    case AssignmentExpression(id, v) =>
      var x :- ConvertExpression(v);
      Ok(ConvertToIdentifier(id.name) + " = " + x)
    case InvalidExpression(_) => Err(NotImplementedException)
    case LogicalExpression(op, a, b) =>
      var x :- ConvertExpression(a);
      var o :- LogicalOperatorText(op);
      var y :- ConvertExpression(b);
      Ok(x + " " + o + " " + y)
    case MathExpression(op, a, b) =>
      var x :- ConvertExpression(a);
      var o :- MathOperatorText(op);
      var y :- ConvertExpression(b);
      Ok(x + " " + o + " " + y)
    case _ => Err(NotImplementedException)
  }

  /** The expression kinds this generator handles itself (its sub-expressions aside). */
  predicate IsConvertible(e: Expression) {
    match e
    case IntLiteralExpression(_) => true
    case StringLiteralExpression(_) => true
    case VariableExpression(_) => true
    case InPlaceAdditionExpression(_, _) => true
    case InPlaceSubtractExpression(_, _) => true
    case InPlaceMultiplyExpression(_, _) => true
    case InPlaceDivisionExpression(_, _) => true
    case AssignmentExpression(_, _) => true
    case LogicalExpression(op, _, _) => op == Equals || op == Less || op == Greater
    case MathExpression(op, _, _) => op != Concat
    case _ => false
  }

  predicate AllConvertible(xs: seq<Expression>) {
    forall x :: x in xs ==> IsConvertible(x)
  }

  lemma ConvertibleConcat(xs: seq<Expression>, ys: seq<Expression>)
    ensures AllConvertible(xs + ys) <==> AllConvertible(xs) && AllConvertible(ys)
  {
  }

  /** An expression converts exactly when it and every expression nested in it is of a handled kind. */
  lemma {:induction false} ConvertExpressionSucceedsIff(e: Expression)
    ensures ConvertExpression(e).Ok? <==> forall x :: x in ExpressionsWithin(e) ==> IsConvertible(x)
    decreases e, 1
  {
    if e.LogicalExpression? || e.MathExpression? {
      BinaryConvertSucceedsIff(e);
    } else if IsUnary(e) {
      UnaryConvertSucceedsIff(e);
    } else if e.IntLiteralExpression? || e.StringLiteralExpression? || e.VariableExpression? {
      assert ExpressionsWithin(e) == [e];
    } else {
      assert e in ExpressionsWithin(e) && !IsConvertible(e);
      assert ConvertExpression(e).Err?;
    }
  }

  /** The handled expression kinds with exactly one sub-expression. */
  predicate IsUnary(e: Expression) {
    e.InPlaceAdditionExpression? || e.InPlaceSubtractExpression? || e.InPlaceMultiplyExpression?
    || e.InPlaceDivisionExpression? || e.AssignmentExpression?
  }

  function Operand(e: Expression): (r: Expression)
    requires IsUnary(e)
    ensures r < e
  {
    match e
    case InPlaceAdditionExpression(v, _) => v
    case InPlaceSubtractExpression(v, _) => v
    case InPlaceMultiplyExpression(v, _) => v
    case InPlaceDivisionExpression(v, _) => v
    case AssignmentExpression(_, v) => v
  }

  lemma {:induction false} UnaryConvertSucceedsIff(e: Expression)
    requires IsUnary(e)
    ensures ConvertExpression(e).Ok? <==> forall x :: x in ExpressionsWithin(e) ==> IsConvertible(x)
    decreases e, 0
  {
    var v := Operand(e);
    ConvertExpressionSucceedsIff(v);
    assert ExpressionsWithin(e) == [e] + ExpressionsWithin(v);
    ConvertibleConcat([e], ExpressionsWithin(v));
    assert ConvertExpression(e).Ok? <==> ConvertExpression(v).Ok?;
  }

  lemma {:induction false} BinaryConvertSucceedsIff(e: Expression)
    requires e.LogicalExpression? || e.MathExpression?
    ensures ConvertExpression(e).Ok? <==> forall x :: x in ExpressionsWithin(e) ==> IsConvertible(x)
    decreases e, 0
  {
    var a, b := e.firstOperand, e.secondOperand;
    ConvertExpressionSucceedsIff(a);
    ConvertExpressionSucceedsIff(b);
    var within := ExpressionsWithin(a) + ExpressionsWithin(b);
    assert ExpressionsWithin(e) == [e] + within;
    ConvertibleConcat(ExpressionsWithin(a), ExpressionsWithin(b));
    ConvertibleConcat([e], within);
    BinaryConvertOk(e);
    calc {
      ConvertExpression(e).Ok?;
      ConvertExpression(a).Ok? && IsConvertible(e) && ConvertExpression(b).Ok?;
      AllConvertible(ExpressionsWithin(a)) && IsConvertible(e) && AllConvertible(ExpressionsWithin(b));
      AllConvertible([e] + within);
    }
  }

  lemma BinaryConvertOk(e: Expression)
    requires e.LogicalExpression? || e.MathExpression?
    ensures ConvertExpression(e).Ok? <==>
            ConvertExpression(e.firstOperand).Ok? && IsConvertible(e) && ConvertExpression(e.secondOperand).Ok?
  {
  }

  /** An identifier both generators write the same way: no owner, no reserved word, nothing but spaces to mangle. */
  predicate SharedIdentifier(id: IdentifierReference) {
    id.owner.None? && !CSharp.IsReservedWord(id.name)
    && forall i :: 0 <= i < |id.name| ==> id.name[i] == ' ' || !CSharp.IsMangledChar(id.name[i])
  }

  /** The identifiers an expression names itself (its sub-expressions aside). */
  predicate NamesShared(e: Expression) {
    match e
    case VariableExpression(id) => SharedIdentifier(id)
    case InPlaceAdditionExpression(_, id) => SharedIdentifier(id)
    case InPlaceSubtractExpression(_, id) => SharedIdentifier(id)
    case InPlaceMultiplyExpression(_, id) => SharedIdentifier(id)
    case InPlaceDivisionExpression(_, id) => SharedIdentifier(id)
    case AssignmentExpression(id, _) => SharedIdentifier(id)
    case _ => true
  }

  /**
   * Whatever this generator converts, the C# generator converts to the same
   * text, as long as every identifier in it is one both write the same way.
   */
  lemma {:induction false} ExpressionAgreesWithCSharp(e: Expression)
    requires ConvertExpression(e).Ok?
    requires forall x :: x in ExpressionsWithin(e) ==> NamesShared(x)
    ensures CSharp.ConvertExpression(e) == ConvertExpression(e)
    decreases e, 1
  {
    if e.LogicalExpression? || e.MathExpression? {
      OperandsShareNames(e);
      if e.MathExpression? {
        MathAgreesWithCSharp(e);
      } else {
        LogicalAgreesWithCSharp(e);
      }
    } else if IsUnary(e) {
      UnaryAgreesWithCSharp(e);
    } else if e.VariableExpression? {
      assert e in ExpressionsWithin(e);
      IdentifierAgreesWithCSharp(e.identifier.name);
    }
  }

  /** The expressions within a binary expression's operands are among those within the expression. */
  lemma OperandsShareNames(e: Expression)
    requires e.LogicalExpression? || e.MathExpression?
    requires forall x :: x in ExpressionsWithin(e) ==> NamesShared(x)
    ensures forall x :: x in ExpressionsWithin(e.firstOperand) ==> NamesShared(x)
    ensures forall x :: x in ExpressionsWithin(e.secondOperand) ==> NamesShared(x)
  {
    var a, b := ExpressionsWithin(e.firstOperand), ExpressionsWithin(e.secondOperand);
    assert ExpressionsWithin(e) == [e] + (a + b);
    forall x | x in a + b ensures x in ExpressionsWithin(e) {
      assert x in [e] + (a + b);
    }
  }

  lemma {:induction false} MathAgreesWithCSharp(e: Expression)
    requires e.MathExpression?
    requires ConvertExpression(e).Ok?
    requires forall x :: x in ExpressionsWithin(e.firstOperand) ==> NamesShared(x)
    requires forall x :: x in ExpressionsWithin(e.secondOperand) ==> NamesShared(x)
    ensures CSharp.ConvertExpression(e) == ConvertExpression(e)
    decreases e, 0
  {
    ExpressionAgreesWithCSharp(e.firstOperand);
    ExpressionAgreesWithCSharp(e.secondOperand);
    OperatorsAgreeWithCSharp(Equals, e.mathOperator);
  }

  lemma {:induction false} LogicalAgreesWithCSharp(e: Expression)
    requires e.LogicalExpression?
    requires ConvertExpression(e).Ok?
    requires forall x :: x in ExpressionsWithin(e.firstOperand) ==> NamesShared(x)
    requires forall x :: x in ExpressionsWithin(e.secondOperand) ==> NamesShared(x)
    ensures CSharp.ConvertExpression(e) == ConvertExpression(e)
    decreases e, 0
  {
    ExpressionAgreesWithCSharp(e.firstOperand);
    ExpressionAgreesWithCSharp(e.secondOperand);
    OperatorsAgreeWithCSharp(e.logicalOperator, Plus);
  }

  lemma {:induction false} UnaryAgreesWithCSharp(e: Expression)
    requires IsUnary(e)
    requires ConvertExpression(e).Ok?
    requires forall x :: x in ExpressionsWithin(e) ==> NamesShared(x)
    ensures CSharp.ConvertExpression(e) == ConvertExpression(e)
    decreases e, 0
  {
    var v := Operand(e);
    assert ExpressionsWithin(e) == [e] + ExpressionsWithin(v);
    assert e in ExpressionsWithin(e);
    ExpressionAgreesWithCSharp(v);
    var id := if e.AssignmentExpression? then e.variable else e.target;
    IdentifierAgreesWithCSharp(id.name);
    assert CSharp.ConvertIdentifierReference(id) == ConvertToIdentifier(id.name);
  }

  // ---------------------------------------------------------------------------
  // Variable declarations: `let name [= value]`; the type is not written

  function VariableDeclarationText(d: VariableDeclaration): (r: Result<string>)
    ensures r.Err? <==> d.expression.Some? && ConvertExpression(d.expression.value).Err?
  {
    var head := "let " + ConvertToIdentifier(d.name);
    if d.expression.None? then Ok(head)
    else
      var value :- ConvertExpression(d.expression.value);
      Ok(head + " = " + value)
  }

  method ConvertVariableDeclaration(d: VariableDeclaration) returns (r: Result<string>)
    ensures r == VariableDeclarationText(d)
  {
    var result := "let ";
    result := result + ConvertToIdentifier(d.name);
    if d.expression.Some? {
      result := result + " = ";
      var value := ConvertExpression(d.expression.value);
      if value.Err? {
        return Err(value.error);
      }
      result := result + value.value;
    }
    return Ok(result);
  }

  /** A declaration starts with `let` and the name, and contains `" = "` exactly when it has an initializer. */
  lemma VariableDeclarationInitializerIff(d: VariableDeclaration)
    ensures VariableDeclarationText(d).Ok? ==>
              (Occurs(VariableDeclarationText(d).value, " = ") <==> d.expression.Some?)
    ensures VariableDeclarationText(d).Ok? ==>
              var head := "let " + ConvertToIdentifier(d.name);
              |head| <= |VariableDeclarationText(d).value| && VariableDeclarationText(d).value[..|head|] == head
  {
    var r := VariableDeclarationText(d);
    var head := "let " + ConvertToIdentifier(d.name);
    if r.Ok? {
      forall i | 4 <= i < |head| ensures head[i] != ' ' {
        assert head[i] == ConvertToIdentifier(d.name)[i - 4];
      }
      CSharp.SpacesApartNoOperator(head, '=');
      if d.expression.Some? {
        assert OccursAt(r.value, " = ", |head|);
      }
      assert r.value[..|head|] == head;
    }
  }

  // ---------------------------------------------------------------------------
  // Statements

  /** The label's marker: the first marker of the label, or none. */
  function LabelMarker(invokable: InvokableLabel): string {
    if invokable.markers == [] then "" else invokable.markers[0]
  }

  function ParameterList(parameters: seq<IdentifierReference>): string {
    Join(", ", seq(|parameters|, i requires 0 <= i < |parameters| => ConvertToIdentifier(parameters[i].name)))
  }

  /** The kinds of statement this generator handles. */
  predicate IsConvertibleStatement(st: Statement) {
    st.BlockStatement? || st.VariableDeclarationStatement? || st.ExpressionStatement? || st.IfStatement?
    || st.ResultStatement? || st.LabeledStatement?
  }

  /**
   * The text of a statement. The body of an `if` or of a labeled statement
   * is written after four spaces; a block writes each statement followed by
   * a line terminator.
   */
  function StatementText(st: Statement): (r: Result<string>)
    ensures !IsConvertibleStatement(st) ==> r == Err(NotImplementedException)
    ensures r.Err? ==> r.error == NotImplementedException
    decreases st
  {
    match st
    case BlockStatement(sts) => BlockText(sts)
    case VariableDeclarationStatement(d) =>
      var text :- VariableDeclarationText(d);
      Ok(text + ";")
    case ExpressionStatement(e) =>
      var text :- ConvertExpression(e);
      Ok(text + ";")
    case IfStatement(c, body) =>
      var condition :- ConvertExpression(c);
      var inner :- StatementText(body);
      Ok("if (" + condition + ") {" + NewLine + "    " + inner + NewLine + "}" + NewLine)
    case ResultStatement(v) =>
      var text :- ConvertExpression(v);
      Ok("return " + text + ";")
    case LabeledStatement(invokable, parameters, body) =>
      var inner :- StatementText(body);
      Ok("function " + ReplaceChar(LabelMarker(invokable), ' ', '_') + "(" + ParameterList(parameters) + ") {" + NewLine
         + "    " + inner + "}" + NewLine)
    case _ => Err(NotImplementedException)
  }

  /** A block's text: each statement's text and a line terminator, in order; the first failure is the result. */
  function BlockText(sts: seq<Statement>): (r: Result<string>)
    ensures r.Err? ==> r.error == NotImplementedException
    decreases sts
  {
    if sts == [] then Ok("")
    else
      var init :- BlockText(sts[..|sts| - 1]);
      var last :- StatementText(sts[|sts| - 1]);
      Ok(init + last + NewLine)
  }

  /** A block converts exactly when each of its statements does. */
  lemma {:induction false} BlockSucceedsIff(sts: seq<Statement>)
    ensures BlockText(sts).Ok? <==> forall i :: 0 <= i < |sts| ==> StatementText(sts[i]).Ok?
  {
    if sts != [] {
      var init := sts[..|sts| - 1];
      BlockSucceedsIff(init);
      assert forall i :: 0 <= i < |init| ==> init[i] == sts[i];
    }
  }

  /** Converting two blocks one after the other is converting their concatenation. */
  lemma {:induction false} BlockTextAppend(a: seq<Statement>, b: seq<Statement>)
    requires BlockText(a).Ok? && BlockText(b).Ok?
    ensures BlockText(a + b) == Ok(BlockText(a).value + BlockText(b).value)
    decreases |b|
  {
    if b == [] {
      assert a + b == a;
      assert BlockText(a).value + BlockText(b).value == BlockText(a).value;
    } else {
      var init, last := b[..|b| - 1], b[|b| - 1];
      assert b == init + [last];
      assert BlockText(init).Ok? && StatementText(last).Ok? && BlockText(b).value == BlockText(init).value + StatementText(last).value + NewLine by {
        BlockTextSnoc(init, last);
      }
      var x, y, z := BlockText(a).value, BlockText(init).value, StatementText(last).value;
      assert BlockText(a + init) == Ok(x + y) by {
        BlockTextAppend(a, init);
      }
      assert BlockText(a + b) == Ok(x + y + z + NewLine) by {
        assert a + (init + [last]) == (a + init) + [last];
        BlockTextSnoc(a + init, last);
      }
      assert (x + y) + z + NewLine == x + (y + z + NewLine);
    }
  }

  lemma BlockTextSnoc(sts: seq<Statement>, st: Statement)
    ensures BlockText(sts + [st]) ==
            if BlockText(sts).Err? then BlockText(sts)
            else if StatementText(st).Err? then StatementText(st)
            else Ok(BlockText(sts).value + StatementText(st).value + NewLine)
  {
    assert (sts + [st])[..|sts|] == sts;
  }

  /** Once a prefix of the block fails, the whole block fails with the same error. */
  lemma {:induction false} BlockFailurePersists(sts: seq<Statement>, i: nat)
    requires i <= |sts| && BlockText(sts[..i]).Err?
    ensures BlockText(sts) == BlockText(sts[..i])
    decreases |sts| - i
  {
    if i == |sts| {
      assert sts[..i] == sts;
    } else {
      assert sts[..i + 1][..i] == sts[..i];
      BlockFailurePersists(sts, i + 1);
    }
  }

  method ConvertStatement(st: Statement) returns (r: Result<string>)
    ensures r == StatementText(st)
    decreases st
  {
    match st {
      case BlockStatement(sts) =>
        var builder := "";
        var i := 0;
        while i < |sts|
          invariant 0 <= i <= |sts|
          invariant BlockText(sts[..i]) == Ok(builder)
        {
          assert sts[..i + 1][..i] == sts[..i];
          var line := ConvertStatement(sts[i]);
          if line.Err? {
            BlockFailurePersists(sts, i + 1);
            return Err(line.error);
          }
          builder := builder + line.value + NewLine;
          i := i + 1;
        }
        assert sts[..i] == sts;
        return Ok(builder);
      case VariableDeclarationStatement(d) =>
        var text := ConvertVariableDeclaration(d);
        if text.Err? {
          return Err(text.error);
        }
        return Ok(text.value + ";");
      case ExpressionStatement(e) =>
        var text :- ConvertExpression(e);
        return Ok(text + ";");
      case IfStatement(c, body) =>
        var condition :- ConvertExpression(c);
        var inner := ConvertStatement(body);
        if inner.Err? {
          return Err(inner.error);
        }
        return Ok("if (" + condition + ") {" + NewLine + "    " + inner.value + NewLine + "}" + NewLine);
      case ResultStatement(v) =>
        var text :- ConvertExpression(v);
        return Ok("return " + text + ";");
      case LabeledStatement(invokable, parameters, body) =>
        var parameterList := ParameterList(parameters);
        var marker := ReplaceChar(LabelMarker(invokable), ' ', '_');
        var inner := ConvertStatement(body);
        if inner.Err? {
          return Err(inner.error);
        }
        return Ok("function " + marker + "(" + parameterList + ") {" + NewLine + "    " + inner.value + "}" + NewLine);
      case _ =>
        return Err(NotImplementedException);
    }
  }

  // ---------------------------------------------------------------------------
  // The entry point

  /** What `Convert` returns for each kind of node: statements, expressions and declarations only. */
  function ConvertNode(node: SyntaxNode): (r: Result<string>)
    ensures !(node.StatementNode? || node.ExpressionNode? || node.VariableDeclarationNode?) ==> r == Err(NotImplementedException)
  {
    match node
    case StatementNode(st) => StatementText(st)
    case ExpressionNode(e) => ConvertExpression(e)
    case VariableDeclarationNode(d) => VariableDeclarationText(d)
    case _ => Err(NotImplementedException)
  }

  method Convert(node: SyntaxNode) returns (r: Result<string>)
    ensures r == ConvertNode(node)
  {
    match node {
      case StatementNode(st) =>
        r := ConvertStatement(st);
      case ExpressionNode(e) =>
        r := ConvertExpression(e);
      case VariableDeclarationNode(d) =>
        r := ConvertVariableDeclaration(d);
      case _ =>
        r := Err(NotImplementedException);
    }
  }
}
