/**
 * The line builder the C# converter writes into: a list of finished lines
 * and the current indentation level. Each level indents by four spaces,
 * and the text is every line followed by a line terminator.
 */
module IndentedText {
  import opened Text

  /** The prefix of a line written at indentation level `level`. */
  function Indentation(level: nat): (r: string)
    ensures |r| == 4 * level
    ensures forall i :: 0 <= i < |r| ==> r[i] == ' '
  {
    if level == 0 then "" else "    " + Indentation(level - 1)
  }

  /** The builder's text: each line followed by `NewLine`. */
  function Render(lines: seq<string>): string {
    if lines == [] then "" else lines[0] + NewLine + Render(lines[1..])
  }

  /** Rendering distributes over appending lines. */
  lemma {:induction false} RenderAppend(a: seq<string>, b: seq<string>)
    ensures Render(a + b) == Render(a) + Render(b)
  {
    if a != [] {
      assert (a + b)[1..] == a[1..] + b;
      RenderAppend(a[1..], b);
      calc {
        Render(a + b);
        a[0] + NewLine + Render(a[1..] + b);
        a[0] + NewLine + (Render(a[1..]) + Render(b));
        (a[0] + NewLine + Render(a[1..])) + Render(b);
      }
    } else {
      assert a + b == b;
    }
  }

  /** Rendering one more line appends it and a line terminator. */
  lemma RenderSnoc(lines: seq<string>, line: string)
    ensures Render(lines + [line]) == Render(lines) + line + NewLine
  {
    RenderAppend(lines, [line]);
    assert Render([line]) == line + NewLine + Render([]);
  }

  /** Joining lines with line terminators is rendering all but the last and appending the last. */
  lemma {:induction false} JoinIsRenderThenLast(lines: seq<string>, last: string)
    ensures Join(NewLine, lines + [last]) == Render(lines) + last
  {
    if lines != [] {
      assert (lines + [last])[1..] == lines[1..] + [last];
      JoinIsRenderThenLast(lines[1..], last);
    }
  }

  /** The rendered text is the lines joined by line terminators, with one more after the last line. */
  lemma RenderIsJoin(lines: seq<string>)
    ensures Render(lines) == if lines == [] then "" else Join(NewLine, lines) + NewLine
  {
    if lines != [] {
      var init, last := lines[..|lines| - 1], lines[|lines| - 1];
      assert lines == init + [last];
      JoinIsRenderThenLast(init, last);
      RenderSnoc(init, last);
    }
  }

  class IndentedStringBuilder {
    var lines: seq<string>
    var indent: nat

    constructor ()
      ensures lines == [] && indent == 0
    {
      lines := [];
      indent := 0;
    }

    /** Append `text` as one line at the current indentation. */
    method AppendLine(text: string)
      modifies this
      ensures lines == old(lines) + [Indentation(indent) + text]
      ensures indent == old(indent)
    {
      lines := lines + [Indentation(indent) + text];
    }

    method PushIndent()
      modifies this
      ensures indent == old(indent) + 1 && lines == old(lines)
    {
      indent := indent + 1;
    }

    method PopIndent()
      requires indent > 0
      modifies this
      ensures indent == old(indent) - 1 && lines == old(lines)
    {
      indent := indent - 1;
    }

    /** Write an opening brace and indent what follows. */
    method OpenBraces()
      modifies this
      ensures lines == old(lines) + [Indentation(old(indent)) + "{"]
      ensures indent == old(indent) + 1
    {
      AppendLine("{");
      PushIndent();
    }

    /** Stop indenting and write a closing brace. */
    method CloseBraces()
      requires indent > 0
      modifies this
      ensures lines == old(lines) + [Indentation(old(indent) - 1) + "}"]
      ensures indent == old(indent) - 1
    {
      PopIndent();
      AppendLine("}");
    }

    /** The builder's text: its lines joined by line terminators, and a terminator after the last one. */
    function ToString(): (r: string)
      reads this
      ensures lines == [] ==> r == ""
      ensures lines != [] ==> r == Join(NewLine, lines) + NewLine
    {
      RenderIsJoin(lines);
      Render(lines)
    }
  }
}
