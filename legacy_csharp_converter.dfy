/**
 * The first C# code generator (`EngLang.CSharpConverter`), which predates
 * the one in `EngLang.LanguageConversion`. It knows literals, the in-place
 * arithmetic forms and assignment, variable declarations, blocks and
 * assignment statements; identifiers only have their spaces replaced.
 */
module LegacyCSharpConversion {
  import opened Wrappers
  import opened Text
  import opened Ast
  import JavaScript = JavaScriptConversion

  /** Spaces become `_`; reserved words are not escaped. */
  function ConvertToIdentifier(name: string): (r: string)
    ensures |r| == |name|
    ensures forall i :: 0 <= i < |r| ==> r[i] == (if name[i] == ' ' then '_' else name[i])
  {
    ReplaceChar(name, ' ', '_')
  }

  function ConvertExpression(e: Expression): (r: Result<string>)
    ensures r.Err? ==> r.error == NotImplementedException
  {
    match e
    case IntLiteralExpression(v) => Ok(IntToString(v))
    case StringLiteralExpression(s) => Ok("\"" + s + "\"")
    case InPlaceAdditionExpression(v, target) =>
      var x :- ConvertExpression(v);
      Ok(ConvertToIdentifier(target.name) + " += " + x)
    case InPlaceSubtractExpression(v, target) =>
      var x :- ConvertExpression(v);
      Ok(ConvertToIdentifier(target.name) + " -= " + x)
    case InPlaceMultiplyExpression(v, target) =>
      var x :- ConvertExpression(v);
      Ok(ConvertToIdentifier(target.name) + " *= " + x)
    case InPlaceDivisionExpression(v, target) =>
      var x :- ConvertExpression(v);
      Ok(ConvertToIdentifier(target.name) + " /= " + x)
    case AssignmentExpression(id, v) =>
      var x :- ConvertExpression(v);
      Ok(ConvertToIdentifier(id.name) + " = " + x)
    case _ => Err(NotImplementedException)
  }

  /** The expression kinds this generator handles (its sub-expressions aside). */
  predicate IsConvertible(e: Expression) {
    e.IntLiteralExpression? || e.StringLiteralExpression? || e.InPlaceAdditionExpression?
    || e.InPlaceSubtractExpression? || e.InPlaceMultiplyExpression? || e.InPlaceDivisionExpression?
    || e.AssignmentExpression?
  }

  /**
   * An expression converts exactly when it is a chain of in-place operations
   * and assignments ending in a literal: every expression within it is of a
   * handled kind.
   */
  lemma {:induction false} ConvertExpressionSucceedsIff(e: Expression)
    ensures ConvertExpression(e).Ok? <==> forall x :: x in ExpressionsWithin(e) ==> IsConvertible(x)
  {
    if JavaScript.IsUnary(e) {
      var v := JavaScript.Operand(e);
      ConvertExpressionSucceedsIff(v);
      assert ExpressionsWithin(e) == [e] + ExpressionsWithin(v);
      assert ConvertExpression(e).Ok? <==> ConvertExpression(v).Ok?;
    } else if e.IntLiteralExpression? || e.StringLiteralExpression? {
      assert ExpressionsWithin(e) == [e];
    } else {
      assert e in ExpressionsWithin(e) && !IsConvertible(e);
    }
  }

  /** Whatever this generator converts, the JavaScript generator converts to the same text. */
  lemma {:induction false} ExpressionAgreesWithJavaScript(e: Expression)
    requires ConvertExpression(e).Ok?
    ensures JavaScript.ConvertExpression(e) == ConvertExpression(e)
  {
    if JavaScript.IsUnary(e) {
      ExpressionAgreesWithJavaScript(JavaScript.Operand(e));
    }
  }

  /** A variable without a type name has none to convert: the generator dereferences a null name. */
  function VariableDeclarationText(d: VariableDeclaration): (r: Result<string>)
    ensures d.typeName.name.None? ==> r == Err(NullReferenceException)
    ensures r.Err? && d.typeName.name.Some? ==> d.expression.Some? && r == ConvertExpression(d.expression.value)
  {
    if d.typeName.name.None? then Err(NullReferenceException)
    else
      var head := ConvertToIdentifier(d.typeName.name.value) + " " + ConvertToIdentifier(d.name);
      if d.expression.None? then Ok(head)
      else
        var value :- ConvertExpression(d.expression.value);
        Ok(head + " = " + value)
  }

  method ConvertVariableDeclaration(d: VariableDeclaration) returns (r: Result<string>)
    ensures r == VariableDeclarationText(d)
  {
    if d.typeName.name.None? {
      return Err(NullReferenceException);
    }
    var result := ConvertToIdentifier(d.typeName.name.value);
    result := result + " ";
    result := result + ConvertToIdentifier(d.name);
    if d.expression.Some? {
      result := result + " = ";
      var value := ConvertExpression(d.expression.value);
      if value.Err? {
        return Err(value.error);
      }
      result := result + value.value;
    }
    return Ok(result);
  }

  /**
   * A declaration is the type, a space and the name, followed by `" = "` and
   * the value exactly when there is an initializer.
   */
  lemma VariableDeclarationShape(d: VariableDeclaration)
    requires VariableDeclarationText(d).Ok?
    ensures d.typeName.name.Some?
    ensures var head := ConvertToIdentifier(d.typeName.name.value) + " " + ConvertToIdentifier(d.name);
            var r := VariableDeclarationText(d).value;
            |head| <= |r| && r[..|head|] == head
            && (d.expression.None? <==> |r| == |head|)
            && (d.expression.Some? ==> r[|head|..] == " = " + ConvertExpression(d.expression.value).value)
  {
    var head := ConvertToIdentifier(d.typeName.name.value) + " " + ConvertToIdentifier(d.name);
    var r := VariableDeclarationText(d).value;
    if d.expression.Some? {
      assert r == head + (" = " + ConvertExpression(d.expression.value).value);
    }
  }

  /** The text of a statement: declarations and assignments end with `;`, a block puts each statement on its own line. */
  function StatementText(st: Statement): (r: Result<string>)
    ensures !(st.BlockStatement? || st.VariableDeclarationStatement? || st.AssignmentStatement?) ==>
              r == Err(NotImplementedException)
    decreases st
  {
    match st
    case BlockStatement(sts) => BlockText(sts)
    case VariableDeclarationStatement(d) =>
      var text :- VariableDeclarationText(d);
      Ok(text + ";")
    case AssignmentStatement(e) =>
      var text :- ConvertExpression(e);
      Ok(text + ";")
    case _ => Err(NotImplementedException)
  }

  function BlockText(sts: seq<Statement>): (r: Result<string>)
    decreases sts
  {
    if sts == [] then Ok("")
    else
      var init :- BlockText(sts[..|sts| - 1]);
      var last :- StatementText(sts[|sts| - 1]);
      Ok(init + last + NewLine)
  }

  /** A block converts exactly when each of its statements does. */
  lemma {:induction false} BlockSucceedsIff(sts: seq<Statement>)
    ensures BlockText(sts).Ok? <==> forall i :: 0 <= i < |sts| ==> StatementText(sts[i]).Ok?
  {
    if sts != [] {
      var init := sts[..|sts| - 1];
      BlockSucceedsIff(init);
      assert forall i :: 0 <= i < |init| ==> init[i] == sts[i];
    }
  }

  /** Once a prefix of the block fails, the whole block fails with the same error. */
  lemma {:induction false} BlockFailurePersists(sts: seq<Statement>, i: nat)
    requires i <= |sts| && BlockText(sts[..i]).Err?
    ensures BlockText(sts) == BlockText(sts[..i])
    decreases |sts| - i
  {
    if i == |sts| {
      assert sts[..i] == sts;
    } else {
      assert sts[..i + 1][..i] == sts[..i];
      BlockFailurePersists(sts, i + 1);
    }
  }

  method ConvertStatement(st: Statement) returns (r: Result<string>)
    ensures r == StatementText(st)
    decreases st
  {
    match st {
      case BlockStatement(sts) =>
        var builder := "";
        var i := 0;
        while i < |sts|
          invariant 0 <= i <= |sts|
          invariant BlockText(sts[..i]) == Ok(builder)
        {
          assert sts[..i + 1][..i] == sts[..i];
          var line := ConvertStatement(sts[i]);
          if line.Err? {
            BlockFailurePersists(sts, i + 1);
            return Err(line.error);
          }
          builder := builder + line.value + NewLine;
          i := i + 1;
        }
        assert sts[..i] == sts;
        return Ok(builder);
      case VariableDeclarationStatement(d) =>
        var text := ConvertVariableDeclaration(d);
        if text.Err? {
          return Err(text.error);
        }
        return Ok(text.value + ";");
      case AssignmentStatement(e) =>
        var text :- ConvertExpression(e);
        return Ok(text + ";");
      case _ =>
        return Err(NotImplementedException);
    }
  }

  /** What `Convert` returns for each kind of node: statements, expressions and declarations only. */
  function ConvertNode(node: SyntaxNode): (r: Result<string>)
    ensures !(node.StatementNode? || node.ExpressionNode? || node.VariableDeclarationNode?) ==> r == Err(NotImplementedException)
  {
    match node
    case StatementNode(st) => StatementText(st)
    case ExpressionNode(e) => ConvertExpression(e)
    case VariableDeclarationNode(d) => VariableDeclarationText(d)
    case _ => Err(NotImplementedException)
  }

  method Convert(node: SyntaxNode) returns (r: Result<string>)
    ensures r == ConvertNode(node)
  {
    match node {
      case StatementNode(st) =>
        r := ConvertStatement(st);
      case ExpressionNode(e) =>
        r := ConvertExpression(e);
      case VariableDeclarationNode(d) =>
        r := ConvertVariableDeclaration(d);
      case _ =>
        r := Err(NotImplementedException);
    }
  }
}
