/**
 * Concrete conversions by the C# generator, written as syntax trees (the
 * parser that produces them from sentences is not part of this model).
 */
module CSharpExamples {
  import opened Wrappers
  import opened Text
  import opened Ast
  import opened CSharpConversion

  /** A name that is no reserved word and has nothing to mangle is its own identifier. */
  lemma PlainIdentifier(name: string)
    requires !IsReservedWord(name)
    requires forall i :: 0 <= i < |name| ==> !IsMangledChar(name[i])
    ensures ConvertToIdentifier(name) == name
  {
    assert |ConvertToIdentifier(name)| == |name|;
  }

  /** A plain unqualified name converts to itself, alone or as a variable. */
  lemma PlainName(name: string)
    requires !IsReservedWord(name)
    requires forall i :: 0 <= i < |name| ==> !IsMangledChar(name[i])
    ensures ConvertIdentifierReference(IdentifierReference(name, None)) == name
    ensures ConvertExpression(VariableExpression(IdentifierReference(name, None))) == Ok(name)
  {
    PlainIdentifier(name);
  }

  /** The condition of `if number is 0 then add 42 to the value.` */
  lemma EqualityExpressionExample()
    ensures ConvertExpression(LogicalExpression(Equals, VariableExpression(IdentifierReference("number", None)), IntLiteralExpression(0)))
            == Ok("number == 0")
  {
    PlainName("number");
    assert IntToString(0) == "0";
    assert ConvertExpression(IntLiteralExpression(0)) == Ok("0");
    assert "number" + " " + "==" + " " + "0" == "number == 0";
  }

  /** The statement of `if number is 0 then add 42 to the value.` */
  lemma InPlaceAdditionExample()
    ensures ConvertExpression(InPlaceAdditionExpression(IntLiteralExpression(42), IdentifierReference("value", None)))
            == Ok("value += 42")
  {
    PlainName("value");
    assert IntToString(42) == "42";
    assert ConvertExpression(IntLiteralExpression(42)) == Ok("42");
    assert "value" + " += " + "42" == "value += 42";
  }

  /** The declaration line of `The hundred is 100.` */
  lemma IntegerConstantExample()
    ensures ConstantDeclarationText(IdentifierReference("hundred", None), IntLiteralExpression(100))
            == Ok("public const long hundred = 100")
  {
    PlainName("hundred");
    assert IntToString(100) == "100";
    assert ConvertExpression(IntLiteralExpression(100)) == Ok("100");
    assert GetExpressionType(IntLiteralExpression(100)) == Ok("long");
    assert "public const " + "long" + " " + "hundred" + " = " + "100" == "public const long hundred = 100";
  }

  /** Spaces in a name become underscores: the pointer type of `A data pointer is a pointer to a data.` */
  lemma PointerNameExample()
    ensures ConvertIdentifierReference(IdentifierReference("data pointer", None)) == "data_pointer"
  {
    assert ConvertToIdentifier("data pointer") == "data_pointer";
  }

  /** The header of a shape with a base shape. */
  lemma ShapeHeaderExample()
    ensures ShapeHeader(ShapeDeclaration("apple", Some(TypeIdentifierReference(Some("fruit"), false)), None))
            == Ok("public class apple : fruit")
  {
    PlainIdentifier("apple");
    PlainIdentifier("fruit");
    assert "public class " + "apple" + " : " + "fruit" == "public class apple : fruit";
  }

  /** A reserved word used as a type name is escaped too. */
  lemma ReservedTypeExample()
    ensures ConvertTypeIdentifierReference(TypeIdentifierReference(Some("byte"), false)) == Ok("@byte")
  {
    assert IsReservedWord("byte");
    assert ConvertToIdentifier("byte") == "@" + "byte" == "@byte";
  }

  /**
   * `The byte is a byte equal to 65.`: the type name is escaped like any
   * other identifier, so the declaration starts with `@byte`.
   */
  lemma ByteVariableExample()
    ensures VariableDeclarationText(VariableDeclaration("byte", TypeIdentifierReference(Some("byte"), false), Some(IntLiteralExpression(65))))
            == Ok("@byte @byte = 65")
  {
    assert IntToString(65) == "65";
    assert ConvertExpression(IntLiteralExpression(65)) == Ok("65");
    ReservedTypeExample();
    assert ConvertToIdentifier("byte") == "@byte";
    assert "@byte" + " " + "@byte" + " = " + "65" == "@byte @byte = 65";
  }
}
