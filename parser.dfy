/**
 * The sentence parser (`EngLang.EngLangParser`). A text with full stops is a
 * block of variable declarations, one per non-empty piece between them; a
 * piece is parsed from its first word: "a" or "an" names a type, "the"
 * declares a variable. The parsing functions call one another on ever
 * shorter texts, which is what makes the recursion terminate.
 *
 * Each thrown exception is the `Err` side of a result.
 */
module EngLangParsing {
  import opened Wrappers
  import opened Text
  import opened Ast

  /** The exceptions this parser throws: an unknown first word, a missing " is ", a piece or type of the wrong kind. */
  predicate IsParserError(e: Exception) {
    e == NotImplementedException || e == IndexOutOfRangeException || e == InvalidOperationException
  }

  /** `Parse(string)`: a block of declarations when the text holds a full stop, otherwise one node. */
  function Parse(sourceCode: string): (r: Result<SyntaxNode>)
    ensures r.Ok? && '.' in sourceCode ==> r.value.StatementNode? && r.value.statement.BlockStatement?
    ensures r.Ok? && '.' !in sourceCode ==> r.value.IdentifierReferenceNode? || r.value.VariableDeclarationNode?
    ensures r.Err? ==> IsParserError(r.error)
    decreases |sourceCode|, 3, 0
  {
    if '.' in sourceCode then
      var statements :- ParseStatements(SplitRemoveEmpty(sourceCode, '.'), |sourceCode|);
      Ok(StatementNode(BlockStatement(statements)))
    else
      ParseNode(sourceCode)
  }

  /** The statements of the pieces, in order; the first piece that fails decides the error. */
  function ParseStatements(pieces: seq<string>, bound: nat): (r: Result<seq<Statement>>)
    requires forall k :: 0 <= k < |pieces| ==> |pieces[k]| <= bound
    ensures r.Ok? ==> |r.value| == |pieces|
    ensures r.Err? ==> IsParserError(r.error)
    decreases bound, 2, |pieces| + 1
  {
    if pieces == [] then Ok([])
    else
      var first :- PieceStatement(pieces[0]);
      var rest :- ParseStatements(pieces[1..], bound);
      Ok([first] + rest)
  }

  /** One piece of a block: parsed, then required to be a declaration. */
  function PieceStatement(piece: string): (r: Result<Statement>)
    ensures r.Ok? ==> r.value.VariableDeclarationStatement?
    ensures r.Err? ==> IsParserError(r.error)
    decreases |piece|, 2, 0
  {
    var node :- ParseNode(piece);
    ConvertToStatement(node)
  }

  /** Only a variable declaration can stand as a statement of a block. */
  function ConvertToStatement(node: SyntaxNode): (r: Result<Statement>)
    ensures r.Ok? <==> node.VariableDeclarationNode?
    ensures r.Ok? ==> r.value == VariableDeclarationStatement(node.declaration)
    ensures r.Err? ==> r.error == InvalidOperationException
  {
    match node
    case VariableDeclarationNode(d) => Ok(VariableDeclarationStatement(d))
    case _ => Err(InvalidOperationException)
  }

  /** `ParseNode(string)`: chosen by the first space-separated word. */
  function ParseNode(sourceCode: string): (r: Result<SyntaxNode>)
    ensures r.Ok? ==> r.value.IdentifierReferenceNode? || r.value.VariableDeclarationNode?
    ensures r.Err? ==> IsParserError(r.error)
    decreases |sourceCode|, 1, 0
  {
    var parts := SplitAll(sourceCode, " ");
    var rest := Join(" ", parts[1..]);
    if parts[0] == "a" || parts[0] == "an" then
      Ok(IdentifierReferenceNode(ParseIdentifierReference(rest)))
    else if parts[0] == "the" then
      JoinSplitTail(sourceCode, " ");
      var d :- ParseVariableDeclaration(rest);
      Ok(VariableDeclarationNode(d))
    else
      Err(NotImplementedException)
  }

  /** The whole text names the identifier; it has no owner. */
  function ParseIdentifierReference(content: string): (r: IdentifierReference)
    ensures r.name == content && r.owner.None?
  {
    IdentifierReference(content, None)
  }

  /**
   * `ParseVariableDeclaration(string)`: the name is the text before the
   * first " is ", the type is the next " is "-piece up to the first
   * " equal to" and must parse as an identifier reference, and what follows
   * " equal to" (up to the next one) is the initializer.
   */
  function ParseVariableDeclaration(content: string): (r: Result<VariableDeclaration>)
    ensures r.Ok? ==> r.value.typeName.name.Some? && !r.value.typeName.isCollection
    ensures r.Err? ==> IsParserError(r.error)
    decreases |content|, 0, 0
  {
    var parts := SplitAll(content, " is ");
    if |parts| < 2 then Err(IndexOutOfRangeException)
    else
      SplitAllPieceLength(content, " is ", 1);
      var specificationParts := SplitAll(parts[1], " equal to");
      SplitAllPieceLength(parts[1], " equal to", 0);
      var syntaxNode :- Parse(specificationParts[0]);
      if !syntaxNode.IdentifierReferenceNode? then Err(InvalidOperationException)
      else
        var expression :- Initializer(specificationParts);
        Ok(VariableDeclaration(parts[0], TypeIdentifierReference(Some(syntaxNode.identifier.name), false), expression))
  }

  /** The initializer, when the type is followed by " equal to": the trimmed text after it. */
  function Initializer(specificationParts: seq<string>): (r: Result<Option<Expression>>)
    requires |specificationParts| >= 1
    ensures r.Ok? ==> (r.value.Some? <==> |specificationParts| > 1)
    ensures r.Ok? && r.value.Some? ==> r.value.value == StringLiteralExpression(TrimChar(Trim(specificationParts[1]), '"'))
    ensures r.Err? ==> |specificationParts| > 1 && !("\"" <= Trim(specificationParts[1])) && r.error == InvalidOperationException
  {
    if |specificationParts| > 1 then
      var e :- ParseExpression(Trim(specificationParts[1]));
      Ok(Some(e))
    else Ok(None)
  }

  /** Only a quoted text is an expression: a string literal, with the quotes at both ends trimmed. */
  function ParseExpression(expressionString: string): (r: Result<Expression>)
    ensures r.Ok? <==> "\"" <= expressionString
    ensures r.Ok? ==> r.value == StringLiteralExpression(TrimChar(expressionString, '"'))
    ensures r.Err? ==> r.error == InvalidOperationException
  {
    if "\"" <= expressionString then Ok(StringLiteralExpression(TrimChar(expressionString, '"')))
    else Err(InvalidOperationException)
  }

  // ---------------------------------------------------------------------------
  // Properties

  /** The statements correspond one to one, in order, to the pieces; they all parse exactly when each piece does. */
  lemma {:induction false} ParseStatementsPiecewise(pieces: seq<string>, bound: nat)
    requires forall k :: 0 <= k < |pieces| ==> |pieces[k]| <= bound
    ensures ParseStatements(pieces, bound).Ok? <==> forall k :: 0 <= k < |pieces| ==> PieceStatement(pieces[k]).Ok?
    ensures ParseStatements(pieces, bound).Ok? ==>
              forall k :: 0 <= k < |pieces| ==> ParseStatements(pieces, bound).value[k] == PieceStatement(pieces[k]).value
  {
    if pieces != [] {
      var first, rest := PieceStatement(pieces[0]), ParseStatements(pieces[1..], bound);
      ParseStatementsPiecewise(pieces[1..], bound);
      assert forall k :: 1 <= k < |pieces| ==> pieces[1..][k - 1] == pieces[k];
      if first.Ok? && rest.Ok? {
        assert ParseStatements(pieces, bound) == Ok([first.value] + rest.value);
      }
    }
  }

  /** A failing block reports the error of its first failing piece. */
  lemma {:induction false} ParseStatementsFirstFailure(pieces: seq<string>, bound: nat) returns (k: nat)
    requires forall k :: 0 <= k < |pieces| ==> |pieces[k]| <= bound
    requires ParseStatements(pieces, bound).Err?
    ensures k < |pieces| && PieceStatement(pieces[k]).Err?
    ensures forall j :: 0 <= j < k ==> PieceStatement(pieces[j]).Ok?
    ensures ParseStatements(pieces, bound).error == PieceStatement(pieces[k]).error
  {
    var first := PieceStatement(pieces[0]);
    if first.Err? {
      k := 0;
      assert ParseStatements(pieces, bound) == Err(first.error);
    } else {
      assert ParseStatements(pieces, bound).error == ParseStatements(pieces[1..], bound).error;
      var k' := ParseStatementsFirstFailure(pieces[1..], bound);
      k := k' + 1;
      assert pieces[1..][k'] == pieces[k];
      forall j | 1 <= j < k ensures PieceStatement(pieces[j]).Ok? {
        assert pieces[1..][j - 1] == pieces[j];
      }
    }
  }

  /**
   * A text with a full stop parses exactly when every non-empty piece
   * between full stops is a variable declaration, and then gives the block of
   * those declarations in order.
   */
  lemma BlockOfDeclarations(sourceCode: string)
    requires '.' in sourceCode
    ensures var pieces := SplitRemoveEmpty(sourceCode, '.');
            (Parse(sourceCode).Ok? <==>
               forall k :: 0 <= k < |pieces| ==> ParseNode(pieces[k]).Ok? && ParseNode(pieces[k]).value.VariableDeclarationNode?)
            && (Parse(sourceCode).Ok? ==>
                  var statements := Parse(sourceCode).value.statement.statements;
                  |statements| == |pieces|
                  && forall k :: 0 <= k < |pieces| ==>
                       statements[k] == VariableDeclarationStatement(ParseNode(pieces[k]).value.declaration))
  {
    var pieces := SplitRemoveEmpty(sourceCode, '.');
    ParseStatementsPiecewise(pieces, |sourceCode|);
  }

  /**
   * The first word decides: "a" or "an" makes the rest of the text an
   * identifier reference, "the" makes it a variable declaration, any other
   * word is not implemented.
   */
  lemma ParseNodeByFirstWord(sourceCode: string)
    ensures var word := SplitFirst(sourceCode, " ")[0];
            var rest := if Occurs(sourceCode, " ") then SplitFirst(sourceCode, " ")[1] else "";
            ((word == "a" || word == "an") ==> ParseNode(sourceCode) == Ok(IdentifierReferenceNode(IdentifierReference(rest, None))))
            && (word == "the" ==>
                  (ParseNode(sourceCode).Ok? <==> ParseVariableDeclaration(rest).Ok?)
                  && (ParseNode(sourceCode).Ok? ==> ParseNode(sourceCode).value == VariableDeclarationNode(ParseVariableDeclaration(rest).value)))
            && (word != "a" && word != "an" && word != "the" ==> ParseNode(sourceCode) == Err(NotImplementedException))
  {
    SplitAllHead(sourceCode, " ");
    JoinSplitTail(sourceCode, " ");
  }

  /** A declaration needs " is "; its name is the text before the first one. */
  lemma DeclarationName(content: string)
    ensures !Occurs(content, " is ") ==> ParseVariableDeclaration(content) == Err(IndexOutOfRangeException)
    ensures ParseVariableDeclaration(content).Ok? ==>
              var name := ParseVariableDeclaration(content).value.name;
              name == SplitFirst(content, " is ")[0] && !Occurs(name, " is ")
  {
    SplitAllHead(content, " is ");
  }

  /**
   * The type is the second " is "-piece up to the first " equal to"; it must
   * be an identifier reference, "a" or "an" followed by the type's name.
   */
  lemma DeclarationType(content: string)
    requires ParseVariableDeclaration(content).Ok?
    ensures var typeText := SplitFirst(SplitAll(content, " is ")[1], " equal to")[0];
            '.' !in typeText
            && (SplitFirst(typeText, " ")[0] == "a" || SplitFirst(typeText, " ")[0] == "an")
            && ParseVariableDeclaration(content).value.typeName
               == TypeIdentifierReference(Some(if Occurs(typeText, " ") then SplitFirst(typeText, " ")[1] else ""), false)
  {
    var specification := SplitAll(content, " is ")[1];
    SplitAllHead(specification, " equal to");
    var typeText := SplitAll(specification, " equal to")[0];
    assert Parse(typeText).Ok? && Parse(typeText).value.IdentifierReferenceNode?;
    assert '.' !in typeText;
    ParseNodeByFirstWord(typeText);
  }

  /**
   * There is an initializer exactly when " equal to" follows the type; it is
   * the next piece, trimmed, and must be a quoted text.
   */
  lemma DeclarationInitializer(content: string)
    requires ParseVariableDeclaration(content).Ok?
    ensures var specification := SplitAll(content, " is ")[1];
            var d := ParseVariableDeclaration(content).value;
            (d.expression.Some? <==> Occurs(specification, " equal to"))
            && (d.expression.Some? ==>
                  var initializer := Trim(SplitAll(specification, " equal to")[1]);
                  "\"" <= initializer && d.expression.value == StringLiteralExpression(TrimChar(initializer, '"')))
  {
    var specification := SplitAll(content, " is ")[1];
    var specificationParts := SplitAll(specification, " equal to");
    assert Initializer(specificationParts).Ok?;
    if |specificationParts| == 1 {
      assert Join(" equal to", specificationParts) == specificationParts[0];
    } else {
      assert ParseExpression(Trim(specificationParts[1])).Ok?;
    }
  }

  // ---------------------------------------------------------------------------
  // Examples

  /**
   * A sentence of "a" or "an" and a name without full stops refers to that
   * name, spaces and all: "an apple" to `apple`, "a red apple" to `red apple`.
   */
  lemma ArticleAndName(article: string, name: string)
    requires article == "a" || article == "an"
    requires '.' !in name
    ensures Parse(article + " " + name) == Ok(IdentifierReferenceNode(IdentifierReference(name, None)))
  {
    var s := article + " " + name;
    assert ' ' !in article;
    SplitFirstAtChar(article, ' ', name);
    assert OccursAt(s, " ", |article|);
    assert '.' !in s;
    ParseNodeByFirstWord(s);
  }
}
