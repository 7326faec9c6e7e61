# EngLang front end in Dafny

EngLang is a programming language whose programs read as English sentences
("the width is a number equal to 5."). This project models the part of its
C# implementation that turns sentences into a syntax tree and turns that tree
into something else:

- **EngLangParser** splits a sentence on `.` into statements and reads each
  statement by its first word (`a`/`an` is a variable reference, `the` is a
  declaration `the <name> is a <type> [equal to "<text>"]`) (`parser.dfy`).
- **StupidEngLangParser** is a line-oriented parser. It reads `the …`
  paragraphs as variable declarations and `a …`/`an …` paragraphs as shape
  declarations, splitting the source on blank lines (`stupid_parser.dfy`).
- **ShapeDeclaration.Children** enumerates the children of a shape node
  (`ast.dfy`, where the whole syntax tree is one family of datatypes).
- The **C# converter** (`EngLang.LanguageConversion.CSharpConverter`)
  emits C# through an indenting string builder. It covers paragraphs with
  invokable labels, labeled statements, `if`, constants, unit aliases,
  pointers, shapes and expressions (`csharp_converter.dfy`,
  `indented_string_builder.dfy`).
- The **JavaScript converter** and the **legacy C# converter**
  (`EngLang.CSharpConverter`) each return the text of a node directly
  (`javascript_converter.dfy`, `legacy_csharp_converter.dfy`).
- The **virtual machine** `EngLangVm` keeps two dictionaries: declared
  variables and their values. It interprets paragraphs of variable
  declarations (`vm.dfy`).

Thrown .NET exceptions become `Err` values of a `Result` type (`wrappers.dfy`).
The .NET string operations the code relies on are written out in `text.dfy`:
ordinal `IndexOf`, `Split` with and without a count, `Replace`, `Trim`,
`Join`, and `int.Parse` with the 32-bit range.

The converters' writers are modelled twice:

- A specification function gives the lines or text a node produces, or the
  error it fails with.
- A method does the writing step by step and is proved to produce exactly
  that text or lines, or that error.

The virtual machine is a class whose two dictionaries are `map` fields. Each
interpreting method is proved to move the fields exactly as a pure
state-transition function does. Lemmas about that function give the
machine's invariants: a value is held only for a declared variable, and
execution never removes a variable.

The `IndentedStringBuilder` the C# converter writes to is not among the
source files. Its behaviour is taken from its uses in the converter: four
spaces per level, `OpenBraces` writes `{` and indents, `CloseBraces`
dedents and writes `}`, and every line ends with `"\r\n"`.

## Model

| member | source | states |
|---|---|---|
| Ast.ShapeDeclaration.Children | EngLang/ShapeDeclaration.cs:7-22 | the name comes first as an identifier reference, then the base shape exactly when there is one, then every slot in order, and nothing else |
| CSharpConversion.ConvertToIdentifier | EngLang/LanguageConversion/CSharpConverter.cs:310-319 | the reserved words `byte` and `string` get an `@` prefix; any other name keeps its length |
| CSharpConversion.ConvertToIdentifierIsReplaceChain | EngLang/LanguageConversion/CSharpConverter.cs:318 | for a non-reserved name the result equals the chain of five `Replace` calls: space, `-`, `(`, `)` and `'` each become `_` |
| CSharpConversion.ConvertToIdentifierIdempotent | EngLang/LanguageConversion/CSharpConverter.cs:310-319 | no output character is one that gets mangled, and converting an identifier a second time changes nothing |
| CSharpConversion.ConvertIdentifierReference | EngLang/LanguageConversion/CSharpConverter.cs:39-50 | a reference without an owner is exactly its converted name, and one with an owner is longer |
| CSharpConversion.ConvertIdentifierReferenceEndsWithName | EngLang/LanguageConversion/CSharpConverter.cs:41-48 | a reference ends with its own converted name, preceded by `.` whenever it has an owner |
| CSharpConversion.ConvertIdentifierReferenceJoins | EngLang/LanguageConversion/CSharpConverter.cs:39-50 | a qualified reference renders as its converted names, outermost owner first, joined by `.` |
| CSharpConversion.QualifiedName | EngLang/LanguageConversion/CSharpConverter.cs:42-44 | the chain of owners ends in the reference's own name |
| CSharpConversion.ConvertTypeIdentifierReference | EngLang/LanguageConversion/CSharpConverter.cs:52-63 | fails with NullReferenceException exactly when the type has no name; otherwise the result is the converted name, followed by `[]` exactly for a collection |
| CSharpConversion.TypeReferenceAgreesWithIdentifier | EngLang/LanguageConversion/CSharpConverter.cs:39-63 | a plain type name renders the same as a variable reference with the same name |
| CSharpConversion.LogicalOperatorText | EngLang/LanguageConversion/CSharpConverter.cs:170-182 | every comparison operator has a text, and only the invalid one throws NotImplementedException |
| CSharpConversion.LogicalOperatorTextInjective | EngLang/LanguageConversion/CSharpConverter.cs:172-180 | two comparison operators have the same text if and only if they are the same operator |
| CSharpConversion.MathOperatorText | EngLang/LanguageConversion/CSharpConverter.cs:184-195 | every arithmetic operator is one character |
| CSharpConversion.MathOperatorTextCollision | EngLang/LanguageConversion/CSharpConverter.cs:188-192 | two arithmetic operators render alike if and only if they are equal, or are `Plus` and `Concat`, which both become `+` |
| CSharpConversion.ConvertExpression | EngLang/LanguageConversion/CSharpConverter.cs:106-147 | the only failure is NotImplementedException |
| CSharpConversion.ConvertExpressions | EngLang/LanguageConversion/CSharpConverter.cs:143 | converting invocation parameters gives one text per parameter, or NotImplementedException |
| CSharpConversion.ConvertExpressionSucceedsIff | EngLang/LanguageConversion/CSharpConverter.cs:106-147 | an expression converts if and only if no expression nested in it is an unhandled kind (a bare in-place math record, or an invalid comparison) |
| CSharpConversion.UnaryConvertSucceedsIff | EngLang/LanguageConversion/CSharpConverter.cs:124-133 | the same if-and-only-if for in-place arithmetic, assignment and possessive expressions |
| CSharpConversion.BinaryConvertSucceedsIff | EngLang/LanguageConversion/CSharpConverter.cs:136-139 | the same if-and-only-if for comparisons and arithmetic |
| CSharpConversion.BinaryConvertOk | EngLang/LanguageConversion/CSharpConverter.cs:136-139 | a binary expression converts if and only if both operands convert and its operator is valid |
| CSharpConversion.ConvertExpressionsSucceedIff | EngLang/LanguageConversion/CSharpConverter.cs:142-143 | a parameter list converts if and only if every expression within every parameter is convertible |
| CSharpConversion.ConvertibleConcat | EngLang/LanguageConversion/CSharpConverter.cs:143 | a concatenated list is convertible if and only if both halves are |
| CSharpConversion.IntLiteralRoundTrip | EngLang/LanguageConversion/CSharpConverter.cs:110-111 | the text written for any 32-bit integer literal parses back to the same integer |
| CSharpConversion.GetExpressionType | EngLang/LanguageConversion/CSharpConverter.cs:149-168 | a C# type exists exactly for the six literal kinds; any other expression throws NotImplementedException |
| CSharpConversion.TypedExpressionConverts | EngLang/LanguageConversion/CSharpConverter.cs:149-168 | every expression that has a C# type also converts, so a constant never fails on its value after its type was found |
| CSharpConversion.ConvertVariableDeclaration | EngLang/LanguageConversion/CSharpConverter.cs:65-78 | the StringBuilder text equals the declaration text specification, including its failure |
| CSharpConversion.VariableDeclarationInitializerIff | EngLang/LanguageConversion/CSharpConverter.cs:65-78 | a converted declaration starts with `<type> <name>` and contains ` = ` if and only if it has an initializer |
| CSharpConversion.SpacesApartNoOperator | EngLang/LanguageConversion/CSharpConverter.cs:68-70 | a text with no two spaces two apart has no ` x ` operator in it |
| CSharpConversion.ShapeHeader | EngLang/LanguageConversion/CSharpConverter.cs:83-89 | the header fails with NullReferenceException exactly when the base shape has no name |
| CSharpConversion.ShapeHeaderBaseIff | EngLang/LanguageConversion/CSharpConverter.cs:83-89 | the header contains ` : ` if and only if the shape has a base shape |
| CSharpConversion.SlotLines | EngLang/LanguageConversion/CSharpConverter.cs:93-99 | one `public object` line per slot, in slot order |
| CSharpConversion.ShapeTextIsJoinedLines | EngLang/LanguageConversion/CSharpConverter.cs:80-104 | a shape's text is its lines joined by line breaks: the header, `{`, the slot lines, `}` |
| CSharpConversion.ConvertShapeDeclaration | EngLang/LanguageConversion/CSharpConverter.cs:80-104 | the StringBuilder text equals the shape text specification |
| CSharpConversion.ConvertSlots | EngLang/LanguageConversion/CSharpConverter.cs:93-99 | the slot loop writes one line per slot, in order |
| CSharpConversion.StatementListFailurePersists | EngLang/LanguageConversion/CSharpConverter.cs:232-235 | once a prefix of a block's statements fails, the whole block fails with that error |
| CSharpConversion.ParagraphListFailurePersists | EngLang/LanguageConversion/CSharpConverter.cs:219-225 | once a prefix of the paragraphs fails, the whole paragraph list fails with that error |
| CSharpConversion.LineShift | EngLang/LanguageConversion/CSharpConverter.cs:253 | one more level of indentation is four more leading spaces |
| CSharpConversion.SingleLineShift | EngLang/LanguageConversion/CSharpConverter.cs:253 | indenting a single line is writing it one level deeper |
| CSharpConversion.IndentedAppend | EngLang/LanguageConversion/CSharpConverter.cs:253-255 | indenting distributes over concatenation of line lists |
| CSharpConversion.BracedBlockShift | EngLang/LanguageConversion/CSharpConverter.cs:204-216 | a signature line with a braced body, indented, is the same block written one level deeper around the indented body |
| CSharpConversion.ConstantLinesShift | EngLang/LanguageConversion/CSharpConverter.cs:284-295 | the `constants` class block one level deeper is the same block indented |
| CSharpConversion.StatementLinesShift | EngLang/LanguageConversion/CSharpConverter.cs:227-306 | converting a statement one level deeper gives the same lines indented by four spaces, and the same error on failure |
| CSharpConversion.LeafStatementLinesShift | EngLang/LanguageConversion/CSharpConverter.cs:238-299 | the same for statements that write a single line or the constants block |
| CSharpConversion.StatementListLinesShift | EngLang/LanguageConversion/CSharpConverter.cs:232-235 | the same for a block's statement list |
| CSharpConversion.ParagraphLinesShift | EngLang/LanguageConversion/CSharpConverter.cs:197-217 | the same for a paragraph, with or without a label |
| CSharpConversion.ConvertStatement | EngLang/LanguageConversion/CSharpConverter.cs:227-306 | the builder gains exactly the statement's lines at the current indentation and ends at the same indentation; on failure the error is the specification's |
| CSharpConversion.ConvertIfStatement | EngLang/LanguageConversion/CSharpConverter.cs:250-257 | `if (<condition>) {`, the branch one level deeper, then `}`, and the indentation restored |
| CSharpConversion.ConvertLabeledStatement | EngLang/LanguageConversion/CSharpConverter.cs:261-268 | `void <first marker>(<parameters>)`, braces around the inner statement one level deeper, and the indentation restored |
| CSharpConversion.ConvertLeafStatement | EngLang/LanguageConversion/CSharpConverter.cs:238-249 | declarations, shapes, expressions, results, invocations, pointers, constants, unit aliases and invalid statements each append their lines as specified |
| CSharpConversion.ConvertConstantStatement | EngLang/LanguageConversion/CSharpConverter.cs:284-295 | a constant or unit alias appends the `constants` class with one typed `public const` line inside |
| CSharpConversion.ConvertStatementList | EngLang/LanguageConversion/CSharpConverter.cs:231-237 | a block appends its statements' lines in order, stopping at the first failure |
| CSharpConversion.ConvertParagraph | EngLang/LanguageConversion/CSharpConverter.cs:197-217 | a paragraph appends its statements' lines, wrapped in a method when it has a label |
| CSharpConversion.ConvertLabeledParagraph | EngLang/LanguageConversion/CSharpConverter.cs:199-216 | a labeled paragraph writes `void <marker>(<parameters>)`, then `{`, its statements one level deeper, then `}` |
| CSharpConversion.ConvertParagraphList | EngLang/LanguageConversion/CSharpConverter.cs:219-225 | the paragraphs' lines are appended in order, stopping at the first failure |
| CSharpConversion.Convert | EngLang/LanguageConversion/CSharpConverter.cs:10-37 | the entry point returns the node's text as specified for each node kind, and NotImplementedException for any other kind |
| CSharpExamples.PlainIdentifier | EngLang/LanguageConversion/CSharpConverter.cs:310-319 | a non-reserved name with no mangled character is its own identifier |
| CSharpExamples.PlainName | EngLang/LanguageConversion/CSharpConverter.cs:122-123 | such a name renders unchanged as a reference and as a variable expression |
| CSharpExamples.EqualityExpressionExample | EngLang/LanguageConversion/CSharpConverter.cs:136-137 | `number` equal to 0 becomes `number == 0` |
| CSharpExamples.InPlaceAdditionExample | EngLang/LanguageConversion/CSharpConverter.cs:124-125 | adding 42 to `value` becomes `value += 42` |
| CSharpExamples.IntegerConstantExample | EngLang/LanguageConversion/CSharpConverter.cs:287 | the constant `hundred` with value 100 becomes `public const long hundred = 100` |
| CSharpExamples.PointerNameExample | EngLang/LanguageConversion/CSharpConverter.cs:318 | `data pointer` becomes `data_pointer` |
| CSharpExamples.ShapeHeaderExample | EngLang/LanguageConversion/CSharpConverter.cs:83-89 | `apple` based on `fruit` becomes `public class apple : fruit` |
| CSharpExamples.ReservedTypeExample | EngLang/LanguageConversion/CSharpConverter.cs:312-316 | the type `byte` becomes `@byte` |
| CSharpExamples.ByteVariableExample | EngLang/LanguageConversion/CSharpConverter.cs:65-78 | a `byte` variable of type `byte` initialised to 65 becomes `@byte @byte = 65` |
| IndentedText.Indentation | EngLang/LanguageConversion/CSharpConverter.cs:253 | a level of indentation is four spaces |
| IndentedText.RenderAppend | EngLang/LanguageConversion/CSharpConverter.cs:17 | rendering concatenated line lists is concatenating their renderings |
| IndentedText.RenderSnoc | EngLang/LanguageConversion/CSharpConverter.cs:17 | rendering one more line appends it with a line break |
| IndentedText.JoinIsRenderThenLast | EngLang/LanguageConversion/CSharpConverter.cs:91-101 | writing lines each followed by a line break and then a last line without one is joining them all with line breaks |
| IndentedText.RenderIsJoin | EngLang/LanguageConversion/CSharpConverter.cs:17 | the rendered text is the lines joined by line breaks plus one final line break, and empty when there are no lines |
| IndentedText.IndentedStringBuilder.AppendLine | EngLang/LanguageConversion/CSharpConverter.cs:240 | appends exactly one line at the current indentation and keeps the indentation |
| IndentedText.IndentedStringBuilder.OpenBraces | EngLang/LanguageConversion/CSharpConverter.cs:205 | appends `{` at the current indentation, then indents one level |
| IndentedText.IndentedStringBuilder.CloseBraces | EngLang/LanguageConversion/CSharpConverter.cs:215 | dedents one level, then appends `}` |
| IndentedText.IndentedStringBuilder.PushIndent | EngLang/LanguageConversion/CSharpConverter.cs:253 | indents one level without writing |
| IndentedText.IndentedStringBuilder.PopIndent | EngLang/LanguageConversion/CSharpConverter.cs:255 | dedents one level without writing |
| IndentedText.IndentedStringBuilder.ToString | EngLang/LanguageConversion/CSharpConverter.cs:17 | the text is empty when nothing was written, and otherwise the lines joined by line breaks followed by one more line break |
| JavaScriptConversion.ConvertToIdentifier | EngLang/LanguageConversion/JavaScriptConverter.cs:125-128 | each space becomes `_` and every other character stays, so the length is kept and no space is left |
| JavaScriptConversion.IdentifierAgreesWithCSharp | EngLang/LanguageConversion/JavaScriptConverter.cs:125-128 | for a name whose only special characters are spaces, and that is not reserved, the JavaScript and C# identifiers are the same |
| JavaScriptConversion.ReservedWordNotEscaped | EngLang/LanguageConversion/JavaScriptConverter.cs:125-128 | a C# reserved word stays as it is in JavaScript but gets `@` in C# |
| JavaScriptConversion.LogicalOperatorText | EngLang/LanguageConversion/JavaScriptConverter.cs:67-76 | only `==`, `<` and `>` have a text; the other comparisons throw NotImplementedException |
| JavaScriptConversion.MathOperatorText | EngLang/LanguageConversion/JavaScriptConverter.cs:78-88 | every arithmetic operator but `Concat` has a text; `Concat` throws NotImplementedException |
| JavaScriptConversion.OperatorsAgreeWithCSharp | EngLang/LanguageConversion/JavaScriptConverter.cs:67-88 | every operator JavaScript writes, C# writes the same way |
| JavaScriptConversion.ConvertExpression | EngLang/LanguageConversion/JavaScriptConverter.cs:38-65 | the only failure is NotImplementedException |
| JavaScriptConversion.ConvertibleConcat | EngLang/LanguageConversion/JavaScriptConverter.cs:58-61 | a concatenated expression list is convertible if and only if both halves are |
| JavaScriptConversion.ConvertExpressionSucceedsIff | EngLang/LanguageConversion/JavaScriptConverter.cs:38-65 | an expression converts if and only if every expression nested in it is one of the ten handled kinds with a supported operator |
| JavaScriptConversion.UnaryConvertSucceedsIff | EngLang/LanguageConversion/JavaScriptConverter.cs:48-57 | the same if-and-only-if for in-place arithmetic and assignment |
| JavaScriptConversion.BinaryConvertSucceedsIff | EngLang/LanguageConversion/JavaScriptConverter.cs:58-61 | the same if-and-only-if for comparisons and arithmetic |
| JavaScriptConversion.BinaryConvertOk | EngLang/LanguageConversion/JavaScriptConverter.cs:58-61 | a binary expression converts if and only if both operands and the operator do |
| JavaScriptConversion.ExpressionAgreesWithCSharp | EngLang/LanguageConversion/JavaScriptConverter.cs:38-65 | whenever JavaScript converts an expression whose names are plain, C# writes exactly the same text |
| JavaScriptConversion.MathAgreesWithCSharp | EngLang/LanguageConversion/JavaScriptConverter.cs:60-61 | the same agreement for arithmetic |
| JavaScriptConversion.LogicalAgreesWithCSharp | EngLang/LanguageConversion/JavaScriptConverter.cs:58-59 | the same agreement for comparisons |
| JavaScriptConversion.UnaryAgreesWithCSharp | EngLang/LanguageConversion/JavaScriptConverter.cs:48-57 | the same agreement for in-place arithmetic and assignment |
| JavaScriptConversion.VariableDeclarationText | EngLang/LanguageConversion/JavaScriptConverter.cs:24-36 | a declaration fails if and only if its initializer fails |
| JavaScriptConversion.ConvertVariableDeclaration | EngLang/LanguageConversion/JavaScriptConverter.cs:24-36 | the StringBuilder text equals the declaration text specification |
| JavaScriptConversion.VariableDeclarationInitializerIff | EngLang/LanguageConversion/JavaScriptConverter.cs:24-36 | a converted declaration starts with `let <name>` and contains ` = ` if and only if it has an initializer |
| JavaScriptConversion.StatementText | EngLang/LanguageConversion/JavaScriptConverter.cs:90-123 | only blocks, declarations, expressions, `if`, results and labeled statements convert; the rest throw NotImplementedException |
| JavaScriptConversion.BlockText | EngLang/LanguageConversion/JavaScriptConverter.cs:94-101 | a block fails only with NotImplementedException |
| JavaScriptConversion.BlockSucceedsIff | EngLang/LanguageConversion/JavaScriptConverter.cs:94-101 | a block converts if and only if each of its statements does |
| JavaScriptConversion.BlockTextAppend | EngLang/LanguageConversion/JavaScriptConverter.cs:94-101 | the text of two blocks written one after the other is the concatenation of their texts |
| JavaScriptConversion.BlockTextSnoc | EngLang/LanguageConversion/JavaScriptConverter.cs:96-99 | one more statement adds its text and a line break |
| JavaScriptConversion.BlockFailurePersists | EngLang/LanguageConversion/JavaScriptConverter.cs:96-99 | once a prefix of the statements fails, the block fails with that error |
| JavaScriptConversion.ConvertStatement | EngLang/LanguageConversion/JavaScriptConverter.cs:90-123 | the text written equals the statement text specification |
| JavaScriptConversion.ConvertNode | EngLang/LanguageConversion/JavaScriptConverter.cs:9-22 | any node that is not a statement, expression or declaration throws NotImplementedException |
| JavaScriptConversion.Convert | EngLang/LanguageConversion/JavaScriptConverter.cs:9-22 | the entry point returns the node text specification |
| LegacyCSharpConversion.ConvertToIdentifier | EngLang/CSharpConverter.cs:84-87 | each space becomes `_` and every other character stays |
| LegacyCSharpConversion.ConvertExpression | EngLang/CSharpConverter.cs:38-59 | the only failure is NotImplementedException |
| LegacyCSharpConversion.ConvertExpressionSucceedsIff | EngLang/CSharpConverter.cs:38-59 | an expression converts if and only if every expression nested in it is a literal, in-place arithmetic or an assignment |
| LegacyCSharpConversion.ExpressionAgreesWithJavaScript | EngLang/CSharpConverter.cs:38-59 | whatever the legacy converter writes for an expression, the JavaScript converter writes the same |
| LegacyCSharpConversion.VariableDeclarationText | EngLang/CSharpConverter.cs:23-36 | a type without a name throws NullReferenceException; otherwise only the initializer can fail |
| LegacyCSharpConversion.ConvertVariableDeclaration | EngLang/CSharpConverter.cs:23-36 | the StringBuilder text equals the declaration text specification |
| LegacyCSharpConversion.VariableDeclarationShape | EngLang/CSharpConverter.cs:23-36 | a converted declaration is `<type> <name>`, followed by ` = <initializer>` exactly when there is one |
| LegacyCSharpConversion.StatementText | EngLang/CSharpConverter.cs:61-82 | only blocks, declarations and assignments convert; the rest throw NotImplementedException |
| LegacyCSharpConversion.BlockSucceedsIff | EngLang/CSharpConverter.cs:65-72 | a block converts if and only if each of its statements does |
| LegacyCSharpConversion.BlockFailurePersists | EngLang/CSharpConverter.cs:67-70 | once a prefix of the statements fails, the block fails with that error |
| LegacyCSharpConversion.ConvertStatement | EngLang/CSharpConverter.cs:61-82 | the text written equals the statement text specification |
| LegacyCSharpConversion.ConvertNode | EngLang/CSharpConverter.cs:8-21 | any node that is not a statement, expression or declaration throws NotImplementedException |
| LegacyCSharpConversion.Convert | EngLang/CSharpConverter.cs:8-21 | the entry point returns the node text specification |
| VirtualMachine.EvaluateExpression | EngLang/Vm/EngLangVm.cs:110-122 | null, integer and string literals evaluate to their value; every other expression throws NotImplementedException |
| VirtualMachine.DeclareFresh | EngLang/Vm/EngLangVm.cs:52-72 | a new name is declared with its type name, and its value is null, the initializer's value, or missing when evaluating the initializer throws |
| VirtualMachine.RedeclarationFails | EngLang/Vm/EngLangVm.cs:54-57 | declaring a name twice throws `Variable '<name>' is already declared.` and changes nothing |
| VirtualMachine.StatementKeepsValid | EngLang/Vm/EngLangVm.cs:45-108 | a statement keeps every value's name declared, and never makes a dictionary `Add` throw on a duplicate key |
| VirtualMachine.StatementsKeepValid | EngLang/Vm/EngLangVm.cs:39-42 | the same for a paragraph's statements |
| VirtualMachine.ParagraphsKeepValid | EngLang/Vm/EngLangVm.cs:18-21 | the same for a sequence of paragraphs |
| VirtualMachine.ExtendsTransitive | EngLang/Vm/EngLangVm.cs:12-13 | a store that extends one that extends a third also extends the third |
| VirtualMachine.StatementExtends | EngLang/Vm/EngLangVm.cs:45-108 | a statement never removes or changes a declared variable or a stored value, even when it throws |
| VirtualMachine.StatementsExtend | EngLang/Vm/EngLangVm.cs:39-42 | the same for a sequence of statements |
| VirtualMachine.StatementsAppend | EngLang/Vm/EngLangVm.cs:39-42 | running two lists of statements is running the first, then the second unless the first threw |
| VirtualMachine.NestedParagraphInlines | EngLang/Vm/EngLangVm.cs:102-104 | a nested paragraph runs exactly as its statements inlined in place |
| VirtualMachine.DeclarationExample | EngLang/Vm/EngLangVm.cs:52-72 | `width` of type `number` is declared with a null value, and declaring it again throws `Variable 'width' is already declared.` |
| VirtualMachine.InitializerExample | EngLang/Vm/EngLangVm.cs:64-67 | an initializer of 5 stores 5; an initializer that cannot be evaluated throws after the variable is declared but before a value is stored |
| VirtualMachine.EngLangVm.constructor | EngLang/Vm/EngLangVm.cs:12-13 | a new machine has no variables and no values |
| VirtualMachine.EngLangVm.GetVariableDeclaration | EngLang/Vm/EngLangVm.cs:24-27 | the declaration is present exactly when the name was declared |
| VirtualMachine.EngLangVm.GetVariableValue | EngLang/Vm/EngLangVm.cs:29-34 | the value is present exactly when one was stored; otherwise `Variable '<name>' is not defined.` is thrown |
| VirtualMachine.EngLangVm.ExecuteCode | EngLang/Vm/EngLangVm.cs:15-22 | the dictionaries and the outcome are those of running the paragraphs in order; the machine's invariant is kept |
| VirtualMachine.EngLangVm.InterpretParagraph | EngLang/Vm/EngLangVm.cs:36-43 | the same for a paragraph's statements |
| VirtualMachine.EngLangVm.InterpretStatement | EngLang/Vm/EngLangVm.cs:45-108 | the same for one statement: a declaration, a no-op for the unsupported kinds, InvalidOperationException for an invalid statement, a nested paragraph run in place |
| StupidParser.ParseResult.ErrorAs | EngLang/StupidEngLangParser.cs:101 | a parse error carries its expected, got, position and context over to another result type |
| StupidParser.DropCommentLines | EngLang/StupidEngLangParser.cs:43 | every kept line is an input line that is not a comment (trimmed, starting with `\`), every such input line is kept, and no more lines come out than went in |
| StupidParser.DropCommentLinesAppend | EngLang/StupidEngLangParser.cs:43 | lines are dropped one by one: what stays of `a + b` is what stays of `a` followed by what stays of `b`, so order and repeats are kept |
| StupidParser.DropCommentLine | EngLang/StupidEngLangParser.cs:43 | a single line is dropped exactly when it is a comment, and kept as it is otherwise |
| StupidParser.DeclarationCode | EngLang/StupidEngLangParser.cs:43 | the cleaned code neither starts with white space nor ends with `.` |
| StupidParser.SingleLineDeclarationCode | EngLang/StupidEngLangParser.cs:43 | a single line that is not a comment is only trimmed and loses its final dots |
| StupidParser.CommentOnlyDeclarationCode | EngLang/StupidEngLangParser.cs:43 | a single comment line leaves no code at all |
| StupidParser.SplitNameAndType | EngLang/StupidEngLangParser.cs:45-52 | splits at the first ` is `, else at the first ` are `, else not at all; the pieces put back together give the input |
| StupidParser.DefaultValueExpression | EngLang/StupidEngLangParser.cs:61-62 | a quoted default is kept as a string literal with its quotes; any other default must parse as a 32-bit integer, else FormatException or OverflowException |
| StupidParser.TypeAndDefault | EngLang/StupidEngLangParser.cs:56-58 | as written: after every `a ` and then every `an ` is deleted, there is a default exactly when ` equal to ` still occurs; the type is the text before its first occurrence and the default the text after it |
| StupidParser.TypeAndDefaultStrippingArticle | EngLang/StupidEngLangParser.cs:56-58 | corrected: the same split, made after removing only the leading article |
| StupidParser.ParseVariableDeclaration | EngLang/StupidEngLangParser.cs:41-66 | a declaration paragraph fails only with FormatException or OverflowException from `int.Parse` |
| StupidParser.DeclarationOf | EngLang/StupidEngLangParser.cs:44-63 | the same for the code once comments and the final `.` are removed |
| StupidParser.TypeAndInitializer | EngLang/StupidEngLangParser.cs:52-62 | there is a type exactly when the name had a type part, and no default without a type |
| StupidParser.VariableDeclarationParts | EngLang/StupidEngLangParser.cs:44-63 | a parsed declaration has a type exactly when ` is ` or ` are ` occurs; without one the whole code is the name; the name contains no ` is ` |
| StupidParser.StripArticle | EngLang/StupidEngLangParser.cs:75 | the result is a suffix of the input: a leading `an` or `a` followed by any one white-space character loses those characters, and any other input is kept whole |
| StupidParser.ParseShapeDeclaration | EngLang/StupidEngLangParser.cs:68-88 | a shape has a base exactly when ` is ` occurs; name and base are the article-stripped halves; without ` is `, the name is the part before ` has ` |
| StupidParser.ParseParagraphText | EngLang/StupidEngLangParser.cs:39-92 | only a `the`/`The` paragraph can throw, and only from `int.Parse`; a parsed paragraph starts with `the` or an article, has offset 0, no label and one statement; the parse error comes exactly for any other start |
| StupidParser.ParagraphKinds | EngLang/StupidEngLangParser.cs:39-92 | `the`/`The` paragraphs are one declaration statement, `a`/`an` paragraphs one shape statement, and anything else is the parse error at position 1 |
| StupidParser.CollectStep | EngLang/StupidEngLangParser.cs:100-102 | one more paragraph result either adds its paragraph to those collected or stops the list with its error |
| StupidParser.CollectSucceedsIff | EngLang/StupidEngLangParser.cs:97-105 | the list parses if and only if every paragraph does, and then holds them in chunk order |
| StupidParser.FailurePersists | EngLang/StupidEngLangParser.cs:98-103 | once a prefix of the paragraphs fails, the list fails with that result |
| StupidParser.FirstFailureDecides | EngLang/StupidEngLangParser.cs:101 | the first paragraph that fails decides the list's error |
| StupidParser.ParagraphListInChunkOrder | EngLang/StupidEngLangParser.cs:94-106 | the source is split on blank lines; the list parses if and only if every chunk does, the paragraphs come in chunk order, and the first failing chunk's error is returned |
| StupidParser.StupidEngLangParser.Create | EngLang/StupidEngLangParser.cs:14-17 | a null source text becomes the empty program; any other text is kept |
| StupidParser.StupidEngLangParser.ParseBlockStatement | EngLang/StupidEngLangParser.cs:19-22 | always a parse error at position 1 |
| StupidParser.StupidEngLangParser.ParseLabeledStatement | EngLang/StupidEngLangParser.cs:24-27 | always a parse error at position 1 |
| StupidParser.StupidEngLangParser.ParseLabeledStatementSimple | EngLang/StupidEngLangParser.cs:29-32 | always a parse error at position 1 |
| StupidParser.StupidEngLangParser.ParseStatementList | EngLang/StupidEngLangParser.cs:108-111 | always a parse error at position 1 |
| StupidParser.StupidEngLangParser.ParseParagraph | EngLang/StupidEngLangParser.cs:34-37 | a source that starts with neither `the` nor an article is a parse error |
| StupidParser.StupidEngLangParser.ParseParagraphList | EngLang/StupidEngLangParser.cs:94-106 | the loop's result is the chunk-by-chunk collection of paragraph results |
| StupidParser.ArticleDeletionLosesInitializer | EngLang/StupidEngLangParser.cs:56 | as written, `a pizza equal to 5` gives the type `pizzequal to 5` and no default value |
| StupidParser.DeletingArticleJoinsWords | EngLang/StupidEngLangParser.cs:56 | deleting every `a ` turns `a pizza equal to 5` into `pizzequal to 5` |
| StupidParser.ArticleAfterWordJoinsWords | EngLang/StupidEngLangParser.cs:56 | in general, an `a ` at the end of a word is deleted along with the article, which joins the word to the next one |
| StupidParser.NoArticleLeft | EngLang/StupidEngLangParser.cs:56 | the second `Replace`, of `an `, then changes nothing |
| StupidParser.NoEqualToLeft | EngLang/StupidEngLangParser.cs:56 | and ` equal to ` no longer occurs, so the default is lost |
| StupidParser.StrippingArticleKeepsParts | EngLang/StupidEngLangParser.cs:56-58 | removing only the leading article gives back the type name and the default value, for every type name in which ` equal to ` does not occur (even across its end) and every value |
| StupidParser.StripArticleOfArticle | EngLang/StupidEngLangParser.cs:75 | the anchored article removal strips exactly `a ` or `an ` |
| StupidParser.EqualToSplit | EngLang/StupidEngLangParser.cs:56 | splitting `<type> equal to <value>` at the first ` equal to ` gives the type and the value |
| StupidParser.NoEarlierOccurrence | EngLang/StupidEngLangParser.cs:56 | ` equal to ` cannot occur inside the type part |
| EngLangParsing.Parse | EngLang/EngLangParser.cs:9-23 | a sentence with `.` parses to a block statement; one without parses to a reference or a declaration; every failure is one of the three exceptions the parser throws |
| EngLangParsing.ParseStatements | EngLang/EngLangParser.cs:13-18 | one statement per piece, or a parser exception |
| EngLangParsing.PieceStatement | EngLang/EngLangParser.cs:15-16 | a piece becomes a variable declaration statement or throws |
| EngLangParsing.ConvertToStatement | EngLang/EngLangParser.cs:25-32 | only a variable declaration becomes a statement; anything else throws InvalidOperationException |
| EngLangParsing.ParseNode | EngLang/EngLangParser.cs:34-49 | the result is a reference or a declaration, or a parser exception |
| EngLangParsing.ParseIdentifierReference | EngLang/EngLangParser.cs:51-56 | the whole content is the name, with no owner |
| EngLangParsing.ParseVariableDeclaration | EngLang/EngLangParser.cs:58-79 | a declaration always has a named, non-collection type, or the parse throws |
| EngLangParsing.Initializer | EngLang/EngLangParser.cs:71-75 | there is an initializer exactly when ` equal to` occurred; it is the trimmed, unquoted text, and an unquoted one throws InvalidOperationException |
| EngLangParsing.ParseExpression | EngLang/EngLangParser.cs:81-89 | only a text starting with `"` is an expression: a string literal with the quotes trimmed; anything else throws InvalidOperationException |
| EngLangParsing.ParseStatementsPiecewise | EngLang/EngLangParser.cs:13-18 | the statements parse if and only if every piece does, and the i-th statement comes from the i-th piece |
| EngLangParsing.ParseStatementsFirstFailure | EngLang/EngLangParser.cs:14-17 | when the statements fail, the error is the first failing piece's |
| EngLangParsing.BlockOfDeclarations | EngLang/EngLangParser.cs:11-20 | a sentence with `.` parses if and only if every non-empty piece is a declaration, and the block holds them in order |
| EngLangParsing.ParseNodeByFirstWord | EngLang/EngLangParser.cs:34-49 | the first word decides: `a`/`an` gives a reference to the rest, `the` a declaration of the rest, and anything else throws NotImplementedException |
| EngLangParsing.DeclarationName | EngLang/EngLangParser.cs:60-61 | without ` is ` the parse throws IndexOutOfRangeException; the name is the text before the first ` is ` |
| EngLangParsing.DeclarationType | EngLang/EngLangParser.cs:63-69 | the type text has no `.`, starts with `a` or `an`, and the type is the rest of it |
| EngLangParsing.DeclarationInitializer | EngLang/EngLangParser.cs:63-75 | there is an initializer exactly when ` equal to` follows the type, and it is the quoted text without its quotes |
| EngLangParsing.ArticleAndName | EngLang/EngLangParser.cs:34-56 | `a <name>` and `an <name>` (no `.`) parse to a reference to `<name>`, which covers `an apple` and `a red apple` |

## Left out

- Program.cs, the lexer and token types, and the Python analysis scripts are not part of this model.
- `EngLangVm.ExecuteCode` takes a sentence and casts the result of `EngLangParser.Parse` to a paragraph list. That `Parse` never returns a paragraph list: it returns a block, a reference or a declaration. The model's `ExecuteCode` therefore starts from the paragraphs the cast would give. The VM tests (`let … equals`, `add 20 to …`) target a richer parser that is not part of this model.
- The parser the `if` tests use is not part of this model. `EngLangParser.ParseNode` throws NotImplementedException for a sentence starting with `if`.
- `Debug.Assert(false, …)` on the statement kinds the VM does not support is a no-op in release builds. It is modelled as doing nothing.
- Only the exception kind is modelled, not the message built for it. This covers the converters' and parsers' messages (`Syntax node … is not supported` and the like) and the VM's own InvalidOperationException and NotImplementedException messages (EngLang/Vm/EngLangVm.cs:101, 106 and 121). The VM's `EngLangRuntimeException` messages are modelled exactly.
- The inch literal in C# prints its inner value through .NET record formatting. The model carries that printed text as a field of the literal.
- .NET `StartsWith(string)` compares with the current culture. The model compares ordinally.
- StupidParser.TypeAndInitializer: removes only the leading article of the type part, the corrected behaviour listed under Findings. The deletion of every `a ` and `an ` at line 56 is modelled as written by `StupidParser.TypeAndDefault`, and the lemmas at the end of `stupid_parser.dfy` show what it loses. On `the s is a string equal to "a b".` the source's default is `"b"`, because the `a ` inside the literal is deleted; the model's is `"a b"`.
- StupidParser.DeclarationOf: inherits the corrected leading-article removal from `StupidParser.TypeAndInitializer`, so its declarations differ from the source's wherever `a ` or `an ` occurs after the start of the type part.
- StupidParser.ParseVariableDeclaration: inherits the corrected leading-article removal from `StupidParser.TypeAndInitializer`, so its declarations differ from the source's wherever `a ` or `an ` occurs after the start of the type part.
- StupidParser.ParseParagraphText: inherits the corrected leading-article removal from `StupidParser.TypeAndInitializer`, so its declarations differ from the source's wherever `a ` or `an ` occurs after the start of the type part.
- StupidParser.StupidEngLangParser.ParseParagraph: inherits the corrected leading-article removal from `StupidParser.TypeAndInitializer`, so its declarations differ from the source's wherever `a ` or `an ` occurs after the start of the type part.
- StupidParser.StupidEngLangParser.ParseParagraphList: inherits the corrected leading-article removal from `StupidParser.TypeAndInitializer`, so its declarations differ from the source's wherever `a ` or `an ` occurs after the start of the type part.
- Line breaks are fixed to `"\r\n"`, as `Environment.NewLine` is on Windows and as the tests expect.
- CSharpConversion.ConvertStatement: the text the builder holds after a failure is not stated. The source leaves a half-written builder behind, and callers never see it because the exception propagates.
- JavaScriptConversion.StatementText: the JavaScript `LabeledStatement` has a single `Marker` string, while the C# converter uses `Marker.Markers.First()`. Both are modelled over one syntax tree, in which the JavaScript converter uses the first marker, or the empty text when there is none.
- The source mixes versions of the syntax records. Where one converter reads a field that another version lacks, the model gives the field its newest shape:
  - the stupid parser's base shape is an `IdentifierReference` but is stored as a `TypeIdentifierReference` with the same name;
  - `EngLangParser` stores an `IdentifierReference` as the declaration's type and is modelled with a `TypeIdentifierReference` of that name.
- Union nodes and their `Children` are not part of this model.
- The C# constants test expects `byte @byte = 65;` for `The byte is a byte equal to 65.` (EngLang.Tests/LanguageConversion/CSharpConstantsTests.cs:22). The model follows the converter, which sends the type name through the same identifier escaping as the variable name (EngLang/LanguageConversion/CSharpConverter.cs:54 and 68) and so writes `@byte @byte = 65`. `CSharpExamples.ByteVariableExample` states that output. The test's sentence comes from a parser that is not part of this model, so which side is intended is left open.
- The VM test casts `(long)` a boxed 32-bit integer, which would throw in .NET. The model stores the 32-bit value.

## Findings

| source | as written | input that shows it | evidently intended | confidence | as-written member | corrected member |
|---|---|---|---|---|---|---|
| EngLang/StupidEngLangParser.cs:56 | `typeName.Replace("a ", "").Replace("an ", "")` deletes every `a ` and `an ` in the type text, including one that ends a word | `the slice is a pizza equal to 5.`: the type becomes `pizzequal to 5` and the default 5 is lost | strip only the leading article, as the shape branch does with `^an?\s` at lines 75 and 82 | not executed | StupidParser.ArticleDeletionLosesInitializer | StupidParser.StrippingArticleKeepsParts |
