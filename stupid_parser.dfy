/**
 * The string-matching parser (`EngLang.StupidEngLangParser`). It parses a
 * paragraph from its first words alone: a paragraph starting with "the " is
 * a variable declaration, one starting with "a " or "an " a shape
 * declaration. A program is split into paragraphs at blank lines.
 *
 * String prefixes are compared ordinally; `int.Parse` may throw, which is
 * the `Err` side of each result, while a text the parser does not recognise
 * is a `ParseError` value.
 */
module StupidParser {
  import opened Wrappers
  import opened Text
  import opened Ast

  /** A parser's result: the value and the offset after it, or what was expected where. */
  datatype ParseResult<+T> =
    | ParseOk(value: T, offset: nat)
    | ParseError(expected: string, got: string, position: nat, context: string)
  {
    /** The same error as a result of another type. */
    function ErrorAs<U>(): (r: ParseResult<U>)
      requires ParseError?
      ensures r.ParseError? && r.expected == expected && r.got == got && r.position == position && r.context == context
    {
      ParseError(expected, got, position, context)
    }
  }

  /** The one error this parser ever reports. */
  function Unsupported<T>(): ParseResult<T> {
    ParseError("Blockstatement", "ParagraphList", 1, "")
  }

  // ---------------------------------------------------------------------------
  // Variable declarations: `the <name> is a <type> [equal to <value>].`

  /** A line that is a comment once trimmed: it starts with a backslash. */
  predicate IsCommentLine(line: string) {
    "\\" <= Trim(line)
  }

  /** The lines that are not comments, in order. */
  function DropCommentLines(lines: seq<string>): (r: seq<string>)
    ensures |r| <= |lines|
    ensures forall k :: 0 <= k < |r| ==> r[k] in lines && !IsCommentLine(r[k])
    ensures forall line :: line in lines && !IsCommentLine(line) ==> line in r
  {
    if lines == [] then []
    else if IsCommentLine(lines[0]) then DropCommentLines(lines[1..])
    else [lines[0]] + DropCommentLines(lines[1..])
  }

  /** Comment lines are dropped line by line: the lines of `a + b` that stay are those of `a`, then those of `b`. */
  lemma {:induction false} DropCommentLinesAppend(a: seq<string>, b: seq<string>)
    ensures DropCommentLines(a + b) == DropCommentLines(a) + DropCommentLines(b)
  {
    if a == [] {
      assert a + b == b;
    } else {
      assert (a + b)[0] == a[0] && (a + b)[1..] == a[1..] + b;
      DropCommentLinesAppend(a[1..], b);
    }
  }

  /** A single line is dropped exactly when it is a comment. */
  lemma DropCommentLine(line: string)
    ensures DropCommentLines([line]) == if IsCommentLine(line) then [] else [line]
  {
    assert [line][1..] == [];
  }

  /** The declaration text: comment lines dropped, the rest trimmed, trailing dots removed. */
  function DeclarationCode(text: string): (r: string)
    ensures r == [] || (!IsWhiteSpace(r[0]) && r[|r| - 1] != '.')
  {
    var kept := Trim(Join(NewLine, DropCommentLines(SplitAll(text, NewLine))));
    assert kept == [] || !IsWhiteSpace(kept[0]);
    TrimEndChar(kept, '.')
  }

  /** A single line that is not a comment is only trimmed and loses its final dots. */
  lemma SingleLineDeclarationCode(text: string)
    requires !Occurs(text, NewLine) && !IsCommentLine(text)
    ensures DeclarationCode(text) == TrimEndChar(Trim(text), '.')
  {
    assert SplitAll(text, NewLine) == [text];
    assert DropCommentLines([text]) == [text];
  }

  /** A comment line contributes nothing: a declaration made only of comments is empty. */
  lemma CommentOnlyDeclarationCode(text: string)
    requires !Occurs(text, NewLine) && IsCommentLine(text)
    ensures DeclarationCode(text) == ""
  {
    assert SplitAll(text, NewLine) == [text];
    assert DropCommentLines([text]) == [];
  }

  /** The name and the type: split at the first " is ", or failing that at the first " are ". */
  function SplitNameAndType(s: string): (r: seq<string>)
    ensures 1 <= |r| <= 2
    ensures |r| == 1 <==> !Occurs(s, " is ") && !Occurs(s, " are ")
    ensures |r| == 1 ==> r[0] == s
    ensures |r| == 2 && Occurs(s, " is ") ==> s == r[0] + " is " + r[1] && !Occurs(r[0], " is ")
    ensures |r| == 2 && !Occurs(s, " is ") ==> s == r[0] + " are " + r[1] && !Occurs(r[0], " are ")
    ensures !Occurs(r[0], " is ")
  {
    var parts := SplitFirst(s, " is ");
    if |parts| == 1 then
      var r := SplitFirst(s, " are ");
      assert r[0] == s[..|r[0]|];
      PrefixKeepsNonOccurrence(s, |r[0]|, " is ");
      r
    else parts
  }

  /** A default value: a quoted text is a string literal with its quotes kept, anything else goes through `int.Parse`. */
  function DefaultValueExpression(value: string): (r: Result<Expression>)
    ensures "\"" <= value ==> r == Ok(StringLiteralExpression(value))
    ensures !("\"" <= value) ==> (r.Ok? <==> ParseInt32(value).Ok?)
    ensures !("\"" <= value) && r.Ok? ==> r.value == IntLiteralExpression(ParseInt32(value).value)
    ensures r.Err? ==> r.error == FormatException || r.error == OverflowException
  {
    if "\"" <= value then Ok(StringLiteralExpression(value))
    else
      var n :- ParseInt32(value);
      Ok(IntLiteralExpression(n))
  }

  /**
   * The type and the default value, as written: every "a " and then every
   * "an " is deleted wherever it occurs, and the rest is split at the first
   * " equal to ".
   */
  function TypeAndDefault(typeText: string): (r: (string, Option<string>))
    ensures var deleted := ReplaceAll(ReplaceAll(typeText, "a ", ""), "an ", "");
            (r.1.Some? <==> Occurs(deleted, " equal to "))
            && (r.1.None? ==> r.0 == deleted)
            && (r.1.Some? ==> deleted == r.0 + " equal to " + r.1.value && !Occurs(r.0, " equal to "))
  {
    var parts := SplitFirst(ReplaceAll(ReplaceAll(typeText, "a ", ""), "an ", ""), " equal to ");
    (parts[0], if |parts| == 2 then Some(parts[1]) else None)
  }

  function ParseVariableDeclaration(text: string): (r: Result<VariableDeclaration>)
    ensures r.Err? ==> r.error == FormatException || r.error == OverflowException
  {
    DeclarationOf(DeclarationCode(text))
  }

  /** The declaration in the cleaned declaration text. */
  function DeclarationOf(code: string): (r: Result<VariableDeclaration>)
    ensures r.Err? ==> r.error == FormatException || r.error == OverflowException
  {
    var parts := SplitNameAndType(ReplaceAll(code, "the ", ""));
    var typed :- TypeAndInitializer(parts);
    Ok(VariableDeclaration(parts[0], TypeIdentifierReference(typed.0, false), typed.1))
  }

  /**
   * The type name and the initializer of the declaration with the given name
   * and type parts. The type part loses only its leading article; the lemmas
   * at the end of this module show what deleting every article loses.
   */
  function TypeAndInitializer(parts: seq<string>): (r: Result<(Option<string>, Option<Expression>)>)
    requires 1 <= |parts| <= 2
    ensures r.Ok? ==> (r.value.0.None? <==> |parts| == 1) && (r.value.0.None? ==> r.value.1.None?)
    ensures r.Err? ==> r.error == FormatException || r.error == OverflowException
  {
    if |parts| == 1 then Ok((None, None))
    else
      var (typeName, defaultValue) := TypeAndDefaultStrippingArticle(parts[1]);
      if defaultValue.None? then Ok((Some(typeName), None))
      else
        var e :- DefaultValueExpression(defaultValue.value);
        Ok((Some(typeName), Some(e)))
  }

  /**
   * The declared name is the declaration text, with every "the " deleted, up
   * to the first " is " (or " are "); there is a type exactly when one of
   * them occurs, and an initializer only when there is a type.
   */
  lemma VariableDeclarationParts(code: string)
    requires DeclarationOf(code).Ok?
    ensures var d := DeclarationOf(code).value;
            var s := ReplaceAll(code, "the ", "");
            (d.typeName.name.Some? <==> Occurs(s, " is ") || Occurs(s, " are "))
            && (d.typeName.name.None? ==> d.name == s && d.expression.None?)
            && (Occurs(s, " is ") ==> |d.name| + 4 <= |s| && s == d.name + " is " + s[|d.name| + 4..])
            && !Occurs(d.name, " is ")
            && !d.typeName.isCollection
  {
    var s := ReplaceAll(code, "the ", "");
    var parts := SplitNameAndType(s);
    var d := DeclarationOf(code).value;
    assert d.name == parts[0];
    if Occurs(s, " is ") {
      assert s == d.name + " is " + parts[1];
      assert s[|d.name| + 4..] == parts[1];
    }
  }

  // ---------------------------------------------------------------------------
  // Shape declarations: `a <name> is a <base>.` or `a <name> has ...`

  /** The regular expression `^an?\s`: a leading "an" or "a" followed by one white-space character is removed. */
  function StripArticle(s: string): (r: string)
    ensures |r| <= |s| && r == s[|s| - |r|..]
    ensures |s| >= 3 && s[..2] == "an" && IsWhiteSpace(s[2]) ==> r == s[3..]
    ensures |s| >= 2 && s[0] == 'a' && IsWhiteSpace(s[1]) ==> r == s[2..]
    ensures !(|s| >= 2 && s[0] == 'a' && (IsWhiteSpace(s[1]) || (s[1] == 'n' && |s| >= 3 && IsWhiteSpace(s[2])))) ==> r == s
  {
    if |s| >= 3 && s[..2] == "an" && IsWhiteSpace(s[2]) then s[3..]
    else if |s| >= 2 && s[0] == 'a' && IsWhiteSpace(s[1]) then s[2..]
    else s
  }

  function ParseShapeDeclaration(text: string): (r: ShapeDeclaration)
    ensures r.wellKnownSlots.None?
    ensures var code := TrimEndChar(Trim(text), '.');
            (r.baseShapeName.Some? <==> Occurs(code, " is "))
            && (Occurs(code, " is ") ==> r.name == StripArticle(SplitFirst(code, " is ")[0])
                                          && r.baseShapeName.value == TypeIdentifierReference(Some(StripArticle(SplitFirst(code, " is ")[1])), false))
            && (!Occurs(code, " is ") ==> r.name == StripArticle(SplitFirst(code, " has ")[0]))
  {
    var code := TrimEndChar(Trim(text), '.');
    var parts := SplitFirst(code, " is ");
    if |parts| == 1 then
      ShapeDeclaration(StripArticle(SplitFirst(code, " has ")[0]), None, None)
    else
      ShapeDeclaration(StripArticle(parts[0]), Some(TypeIdentifierReference(Some(StripArticle(parts[1])), false)), None)
  }

  // ---------------------------------------------------------------------------
  // Paragraphs

  predicate StartsDeclaration(text: string) {
    "the " <= text || "The " <= text
  }

  predicate StartsShape(text: string) {
    "an " <= text || "An " <= text || "a " <= text || "A " <= text
  }

  /** `ParseParagraph(string)`: the statement kind is chosen by the first word. */
  function ParseParagraphText(text: string): (r: Result<ParseResult<Paragraph>>)
    ensures r.Err? ==> StartsDeclaration(text) && (r.error == FormatException || r.error == OverflowException)
    ensures r.Ok? && r.value.ParseOk? ==>
              (StartsDeclaration(text) || StartsShape(text))
              && r.value.offset == 0 && r.value.value.invokableLabel.None? && |r.value.value.statements| == 1
    ensures r.Ok? && r.value.ParseError? <==> !StartsDeclaration(text) && !StartsShape(text)
  {
    if StartsDeclaration(text) then
      var d :- ParseVariableDeclaration(text);
      Ok(ParseOk(Paragraph([VariableDeclarationStatement(d)], None), 0))
    else if StartsShape(text) then
      Ok(ParseOk(Paragraph([ShapeDeclarationStatement(ParseShapeDeclaration(text))], None), 0))
    else
      Ok(Unsupported())
  }

  /** The paragraph kinds: one unlabeled declaration, one unlabeled shape, or the parse error. */
  lemma ParagraphKinds(text: string)
    ensures var r := ParseParagraphText(text);
            (StartsDeclaration(text) ==>
               (r.Ok? <==> ParseVariableDeclaration(text).Ok?)
               && (r.Ok? ==> r.value.ParseOk? && r.value.offset == 0 && r.value.value.invokableLabel.None?
                             && r.value.value.statements == [VariableDeclarationStatement(ParseVariableDeclaration(text).value)]))
            && (!StartsDeclaration(text) && StartsShape(text) ==>
                  r.Ok? && r.value.ParseOk? && r.value.value.invokableLabel.None?
                  && |r.value.value.statements| == 1 && r.value.value.statements[0].ShapeDeclarationStatement?)
            && (!StartsDeclaration(text) && !StartsShape(text) ==> r == Ok(ParseError("Blockstatement", "ParagraphList", 1, "")))
            && (r.Err? ==> r.error == FormatException || r.error == OverflowException)
  {
  }

  // ---------------------------------------------------------------------------
  // Paragraph lists

  /** A paragraph that parsed. */
  predicate Parsed(r: Result<ParseResult<Paragraph>>) {
    r.Ok? && r.value.ParseOk?
  }

  /** What a paragraph list becomes when this paragraph stops it: its exception, or its parse error. */
  function StopAt(r: Result<ParseResult<Paragraph>>): Result<ParseResult<seq<Paragraph>>>
    requires !Parsed(r)
  {
    if r.Err? then Err(r.error) else Ok(r.value.ErrorAs())
  }

  /** The paragraphs of the results, in order, stopping at the first that is not a parsed paragraph. */
  function Collect(results: seq<Result<ParseResult<Paragraph>>>): Result<ParseResult<seq<Paragraph>>>
    decreases |results|
  {
    if results == [] then Ok(ParseOk([], 0))
    else
      var init :- Collect(results[..|results| - 1]);
      if init.ParseError? then Ok(init)
      else
        var last := results[|results| - 1];
        if !Parsed(last) then StopAt(last)
        else Ok(ParseOk(init.value + [last.value.value], 0))
  }

  /** One more paragraph result either extends the collected paragraphs or stops the list. */
  lemma CollectStep(results: seq<Result<ParseResult<Paragraph>>>, i: nat, collected: seq<Paragraph>)
    requires i < |results| && Collect(results[..i]) == Ok(ParseOk(collected, 0))
    ensures Parsed(results[i]) ==> Collect(results[..i + 1]) == Ok(ParseOk(collected + [results[i].value.value], 0))
    ensures !Parsed(results[i]) ==> Collect(results[..i + 1]) == StopAt(results[i])
  {
    assert results[..i + 1][..i] == results[..i];
  }

  /** The split of a program into paragraphs: at every blank line, CR LF or LF. */
  function Chunks(sourceCode: string): seq<string> {
    SplitAny(sourceCode, ["\r\n\r\n", "\n\n"])
  }

  /** Each chunk parsed as a paragraph. */
  function ParseEach(chunks: seq<string>): (r: seq<Result<ParseResult<Paragraph>>>)
    ensures |r| == |chunks|
    ensures forall i :: 0 <= i < |chunks| ==> r[i] == ParseParagraphText(chunks[i])
  {
    seq(|chunks|, i requires 0 <= i < |chunks| => ParseParagraphText(chunks[i]))
  }

  /**
   * A list is collected exactly when every result is a parsed paragraph,
   * and then it holds their paragraphs, one per result, in order.
   */
  lemma {:induction false} CollectSucceedsIff(results: seq<Result<ParseResult<Paragraph>>>)
    ensures var r := Collect(results);
            (r.Ok? && r.value.ParseOk? <==> forall i :: 0 <= i < |results| ==> Parsed(results[i]))
            && (r.Ok? && r.value.ParseOk? ==>
                  r.value.offset == 0 && |r.value.value| == |results|
                  && forall i :: 0 <= i < |results| ==> r.value.value[i] == results[i].value.value)
    decreases |results|
  {
    if results != [] {
      var init := results[..|results| - 1];
      CollectSucceedsIff(init);
      assert forall i :: 0 <= i < |init| ==> init[i] == results[i];
    }
  }

  /** Once a prefix of the results fails, the whole list fails the same way. */
  lemma {:induction false} FailurePersists(results: seq<Result<ParseResult<Paragraph>>>, i: nat)
    requires i <= |results|
    requires !(Collect(results[..i]).Ok? && Collect(results[..i]).value.ParseOk?)
    ensures Collect(results) == Collect(results[..i])
    decreases |results| - i
  {
    if i == |results| {
      assert results[..i] == results;
    } else {
      assert results[..i + 1][..i] == results[..i];
      FailurePersists(results, i + 1);
    }
  }

  /** The first result that is not a parsed paragraph decides the list: its exception or its parse error. */
  lemma FirstFailureDecides(results: seq<Result<ParseResult<Paragraph>>>, i: nat)
    requires i < |results| && !Parsed(results[i])
    requires forall j :: 0 <= j < i ==> Parsed(results[j])
    ensures Collect(results) == StopAt(results[i])
  {
    var prefix := results[..i + 1];
    assert prefix[..i] == results[..i];
    CollectSucceedsIff(results[..i]);
    assert prefix[i] == results[i];
    FailurePersists(results, i + 1);
  }

  /**
   * A program parses exactly when each of its paragraphs does, into one
   * paragraph per chunk in chunk order; otherwise the first chunk that does
   * not parse decides the result.
   */
  lemma ParagraphListInChunkOrder(sourceCode: string)
    ensures var chunks := Chunks(sourceCode);
            var r := Collect(ParseEach(chunks));
            (r.Ok? && r.value.ParseOk? <==> forall i :: 0 <= i < |chunks| ==> Parsed(ParseParagraphText(chunks[i])))
            && (r.Ok? && r.value.ParseOk? ==>
                  |r.value.value| == |chunks|
                  && forall i :: 0 <= i < |chunks| ==> r.value.value[i] == ParseParagraphText(chunks[i]).value.value)
            && (forall i :: (0 <= i < |chunks| && !Parsed(ParseParagraphText(chunks[i]))
                             && forall j :: 0 <= j < i ==> Parsed(ParseParagraphText(chunks[j])))
                            ==> r == StopAt(ParseParagraphText(chunks[i])))
  {
    var results := ParseEach(Chunks(sourceCode));
    CollectSucceedsIff(results);
    forall i | 0 <= i < |results| && !Parsed(results[i]) && (forall j :: 0 <= j < i ==> Parsed(results[j]))
      ensures Collect(results) == StopAt(results[i])
    {
      FirstFailureDecides(results, i);
    }
  }

  // ---------------------------------------------------------------------------
  // The parser

  /** A parser over one program text; a null text is the empty program. */
  datatype StupidEngLangParser = StupidEngLangParser(sourceCode: string)
  {
    static function Create(sourceCode: Option<string>): (r: StupidEngLangParser)
      ensures r.sourceCode == if sourceCode.Some? then sourceCode.value else ""
    {
      StupidEngLangParser(if sourceCode.Some? then sourceCode.value else "")
    }

    /** The block, statement-list and labeled-statement entry points are not supported: they always report the error. */
    function ParseBlockStatement(): (r: ParseResult<Statement>)
      ensures r.ParseError? && r.position == 1
    {
      Unsupported()
    }

    function ParseLabeledStatement(): (r: ParseResult<Statement>)
      ensures r.ParseError? && r.position == 1
    {
      Unsupported()
    }

    function ParseLabeledStatementSimple(): (r: ParseResult<Statement>)
      ensures r.ParseError? && r.position == 1
    {
      Unsupported()
    }

    function ParseStatementList(): (r: ParseResult<Statement>)
      ensures r.ParseError? && r.position == 1
    {
      Unsupported()
    }

    function ParseParagraph(): (r: Result<ParseResult<Paragraph>>)
      ensures !StartsDeclaration(sourceCode) && !StartsShape(sourceCode) ==> r.Ok? && r.value.ParseError?
    {
      ParseParagraphText(sourceCode)
    }

    /** Parses the paragraphs one by one, returning at the first that fails. */
    method ParseParagraphList() returns (r: Result<ParseResult<seq<Paragraph>>>)
      ensures r == Collect(ParseEach(Chunks(sourceCode)))
    {
      var paragraphs := Chunks(sourceCode);
      ghost var results := ParseEach(paragraphs);
      var paragraphsList: seq<Paragraph> := [];
      for i := 0 to |paragraphs|
        invariant Collect(results[..i]) == Ok(ParseOk(paragraphsList, 0))
      {
        var paragraphResult := ParseParagraphText(paragraphs[i]);
        assert paragraphResult == results[i];
        if !Parsed(paragraphResult) {
          assert Collect(results[..i + 1]) == StopAt(paragraphResult) by {
            CollectStep(results, i, paragraphsList);
          }
          FailurePersists(results, i + 1);
          return StopAt(paragraphResult);
        }
        CollectStep(results, i, paragraphsList);
        paragraphsList := paragraphsList + [paragraphResult.value.value];
      }
      assert results[..|paragraphs|] == results;
      return Ok(ParseOk(paragraphsList, 0));
    }
  }

  // ---------------------------------------------------------------------------
  // Deleting articles anywhere in the type text

  /**
   * "the slice is a pizza equal to 5.": the "a " deleted from the end of
   * "pizza" takes the space before "equal to" with it, so the type becomes
   * "pizzequal to 5" and the initializer is lost.
   */
  lemma ArticleDeletionLosesInitializer()
    ensures TypeAndDefault("a pizza equal to 5") == ("pizzequal to 5", None)
  {
    DeletingArticleJoinsWords();
    NoArticleLeft();
    NoEqualToLeft();
  }

  /** Deleting every "a " from "a pizza equal to 5" also deletes the last letter of "pizza" and the space after it. */
  lemma DeletingArticleJoinsWords()
    ensures ReplaceAll("a pizza equal to 5", "a ", "") == "pizzequal to 5"
  {
    var word, tail := "pizz", "equal to 5";
    assert "a pizza equal to 5" == "a " + word + "a " + tail;
    assert "pizzequal to 5" == word + tail;
    forall j | 0 <= j <= |tail| ensures !OccursAt(tail, "a ", j) {
      if j + 2 <= |tail| {
        assert tail[j..j + 2][0] == tail[j] && tail[j..j + 2][1] == tail[j + 1];
      }
    }
    ArticleAfterWordJoinsWords(word, tail);
  }

  /**
   * A word ending in 'a' and followed by a space loses both: deleting every
   * "a " from `"a " + word + "a " + tail` leaves `word + tail`.
   */
  lemma ArticleAfterWordJoinsWords(word: string, tail: string)
    requires forall j :: 0 <= j < |word| ==> word[j] != 'a'
    requires !Occurs(tail, "a ")
    ensures ReplaceAll("a " + word + "a " + tail, "a ", "") == word + tail
  {
    var article := "a ";
    var inner := article + tail;
    var middle := word + inner;
    assert ReplaceAll(inner, article, "") == tail by {
      ReplaceAllLeadingMatch(tail, article, "");
    }
    assert ReplaceAll(middle, article, "") == word + tail by {
      forall j | 0 <= j < |word| ensures !OccursAt(middle, article, j) {
        assert middle[j] == word[j];
        if j + 2 <= |middle| {
          assert middle[j..j + 2][0] == middle[j];
        }
      }
      ReplaceAllKeepsPrefix(word, inner, article, "");
    }
    ReplaceAllLeadingMatch(middle, article, "");
    assert article + word + article + tail == article + middle;
  }

  lemma NoArticleLeft()
    ensures ReplaceAll("pizzequal to 5", "an ", "") == "pizzequal to 5"
  {
    var t := "pizzequal to 5";
    assert !Occurs(t, "an ") by {
      forall j | 0 <= j <= |t| ensures !OccursAt(t, "an ", j) {
        if j + 3 <= |t| {
          assert t[j..j + 3][0] == t[j] && t[j..j + 3][1] == t[j + 1];
        }
      }
    }
  }

  lemma NoEqualToLeft()
    ensures SplitFirst("pizzequal to 5", " equal to ") == ["pizzequal to 5"]
  {
    var t := "pizzequal to 5";
    assert !Occurs(t, " equal to ") by {
      forall j | 0 <= j <= |t| ensures !OccursAt(t, " equal to ", j) {
        if j + 10 <= |t| {
          assert t[j..j + 10][0] == t[j];
        }
      }
    }
  }

  /** The leading article alone removed, as the shape declarations do it. */
  function TypeAndDefaultStrippingArticle(typeText: string): (r: (string, Option<string>))
    ensures var stripped := StripArticle(typeText);
            (r.1.Some? <==> Occurs(stripped, " equal to "))
            && (r.1.None? ==> r.0 == stripped)
            && (r.1.Some? ==> stripped == r.0 + " equal to " + r.1.value && !Occurs(r.0, " equal to "))
  {
    var parts := SplitFirst(StripArticle(typeText), " equal to ");
    (parts[0], if |parts| == 2 then Some(parts[1]) else None)
  }

  /**
   * With only the leading article removed, the type and the initializer come
   * back as written, whenever " equal to " does not occur in the type name
   * (even across its end).
   */
  lemma StrippingArticleKeepsParts(article: string, typeName: string, value: Option<string>)
    requires article == "a " || article == "an "
    requires !Occurs(typeName + " ", " equal to ")
    ensures TypeAndDefaultStrippingArticle(article + typeName + (if value.Some? then " equal to " + value.value else ""))
            == (typeName, value)
  {
    var rest := typeName + (if value.Some? then " equal to " + value.value else "");
    assert article + typeName + (if value.Some? then " equal to " + value.value else "") == article + rest;
    StripArticleOfArticle(article, rest);
    if value.Some? {
      assert rest == typeName + " equal to " + value.value;
      EqualToSplit(typeName, value.value);
      assert SplitFirst(StripArticle(article + rest), " equal to ") == [typeName, value.value];
    } else {
      assert rest == typeName;
      assert !Occurs(typeName, " equal to ") by {
        forall j | OccursAt(typeName, " equal to ", j) ensures OccursAt(typeName + " ", " equal to ", j) {
          assert (typeName + " ")[j..j + 10] == typeName[j..j + 10];
        }
      }
    }
  }

  lemma StripArticleOfArticle(article: string, rest: string)
    requires article == "a " || article == "an "
    ensures StripArticle(article + rest) == rest
  {
    var s := article + rest;
    if article == "a " {
      assert s[0] == 'a' && s[1] == ' ' && IsWhiteSpace(s[1]);
      assert s[2..] == rest;
    } else {
      assert s[..2] == "an" && s[2] == ' ' && IsWhiteSpace(s[2]);
      assert s[3..] == rest;
    }
  }

  /**
   * Splitting `a + " equal to " + b` at the first " equal to " gives back
   * `a` and `b` when " equal to " does not occur in `a` followed by a space.
   */
  lemma EqualToSplit(a: string, b: string)
    requires !Occurs(a + " ", " equal to ")
    ensures SplitFirst(a + " equal to " + b, " equal to ") == [a, b]
  {
    var s := a + " equal to " + b;
    assert OccursAt(s, " equal to ", |a|);
    forall i | 0 <= i < |a| ensures !OccursAt(s, " equal to ", i) {
      NoEarlierOccurrence(a, b, i);
    }
    match IndexOf(s, " equal to ")
    case Some(k) =>
      assert k == |a|;
      assert s[k + 10..] == b;
  }

  /**
   * " equal to " cannot start inside `a`: not within `a` and the space after
   * it, by assumption, and not further across, since the only spaces of
   * " equal to " past its first character are followed by "to" or nothing.
   */
  lemma NoEarlierOccurrence(a: string, b: string, i: nat)
    requires !Occurs(a + " ", " equal to ") && i < |a|
    ensures !OccursAt(a + " equal to " + b, " equal to ", i)
  {
    var s := a + " equal to " + b;
    var p := " equal to ";
    if i + 10 > |s| {
    } else if i + 10 <= |a| + 1 {
      assert (a + " ")[i..i + 10] == s[i..i + 10];
      assert !OccursAt(a + " ", p, i);
    } else {
      var k := |a| - i;
      assert s[|a|] == ' ' && s[|a| + 1] == 'e';
      if k == 6 {
        assert s[i..i + 10][7] == 'e' != p[7];
      } else {
        assert s[i..i + 10][k] == ' ' != p[k];
      }
    }
  }
}
