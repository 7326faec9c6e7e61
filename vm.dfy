/**
 * The EngLang virtual machine (`EngLang.Vm.EngLangVm`): a symbol table of
 * declared variables and a table of their values, filled by interpreting
 * variable declarations.
 *
 * `Execute*` is the specification: what running a statement does to a
 * `Store` (the two tables) and whether it throws. The class `EngLangVm`
 * holds the two tables as fields and its methods are proved against it.
 */
module VirtualMachine {
  import opened Wrappers
  import opened Text
  import opened Ast

  /** The type of a declared variable: the type name as written, absent when the declaration had none. */
  datatype VmTypeIdentifierReference = VmTypeIdentifierReference(typeName: Option<string>)

  datatype VmVariableDeclaration = VmVariableDeclaration(name: string, shape: VmTypeIdentifierReference)

  /** The value of a variable: a boxed `int`, a string, or null. */
  datatype Value = NullValue | IntValue(intValue: Int32) | StringValue(text: string)

  /** The `variables` and `variableValues` dictionaries. */
  datatype Store = Store(variables: map<string, VmVariableDeclaration>, values: map<string, Value>)

  /** The store after a statement, and whether the statement threw. */
  datatype Step = Step(store: Store, outcome: Outcome)

  /** Every stored value belongs to a declared variable. */
  predicate ValidStore(s: Store) {
    s.values.Keys <= s.variables.Keys
  }

  function AlreadyDeclared(name: string): Exception {
    EngLangRuntimeException("Variable '" + name + "' is already declared.")
  }

  function NotDefined(name: string): Exception {
    EngLangRuntimeException("Variable '" + name + "' is not defined.")
  }

  /** Only literals can be evaluated. */
  function EvaluateExpression(e: Expression): (r: Result<Value>)
    ensures r.Ok? <==> e.NullLiteralExpression? || e.IntLiteralExpression? || e.StringLiteralExpression?
    ensures r.Err? ==> r.error == NotImplementedException
    ensures e.IntLiteralExpression? ==> r == Ok(IntValue(e.intValue))
    ensures e.StringLiteralExpression? ==> r == Ok(StringValue(e.text))
    ensures e.NullLiteralExpression? ==> r == Ok(NullValue)
  {
    match e
    case NullLiteralExpression => Ok(NullValue)
    case IntLiteralExpression(v) => Ok(IntValue(v))
    case StringLiteralExpression(s) => Ok(StringValue(s))
    case _ => Err(NotImplementedException)
  }

  /** `Dictionary.Add` on the values: it throws when the key is already there. */
  function AddValue(s: Store, name: string, v: Value): Step {
    if name in s.values then Step(s, Fail(ArgumentException))
    else Step(Store(s.variables, s.values[name := v]), Pass)
  }

  /**
   * A variable declaration: a redeclaration throws before anything changes;
   * otherwise the declaration is added first and the initializer evaluated
   * after, so an initializer that cannot be evaluated leaves a declared
   * variable without a value.
   */
  function Declare(s: Store, d: VariableDeclaration): Step {
    if d.name in s.variables then Step(s, Fail(AlreadyDeclared(d.name)))
    else
      var declared := Store(s.variables[d.name := VmVariableDeclaration(d.name, VmTypeIdentifierReference(d.typeName.name))], s.values);
      if d.expression.None? then AddValue(declared, d.name, NullValue)
      else
        match EvaluateExpression(d.expression.value)
        case Err(error) => Step(declared, Fail(error))
        case Ok(v) => AddValue(declared, d.name, v)
  }

  /**
   * One statement. Only declarations, invalid statements and nested
   * paragraphs do anything; the other statement kinds are not supported and
   * pass without effect (their checks are debug assertions).
   */
  function ExecuteStatement(s: Store, st: Statement): Step
    decreases st
  {
    match st
    case VariableDeclarationStatement(d) => Declare(s, d)
    case InvalidStatement(_) => Step(s, Fail(InvalidOperationException))
    case ParagraphStatement(p) => ExecuteStatements(s, p.statements)
    case AssignmentStatement(_) => Step(s, Fail(NotImplementedException))
    case _ => Step(s, Pass)
  }

  /** Statements in order, stopping at the first that throws. */
  function ExecuteStatements(s: Store, sts: seq<Statement>): Step
    decreases sts
  {
    if sts == [] then Step(s, Pass)
    else
      var first := ExecuteStatement(s, sts[0]);
      if first.outcome.Fail? then first else ExecuteStatements(first.store, sts[1..])
  }

  /** Paragraphs in order, stopping at the first that throws. */
  function ExecuteParagraphs(s: Store, ps: seq<Paragraph>): Step
    decreases ps
  {
    if ps == [] then Step(s, Pass)
    else
      var first := ExecuteStatements(s, ps[0].statements);
      if first.outcome.Fail? then first else ExecuteParagraphs(first.store, ps[1..])
  }

  // ---------------------------------------------------------------------------
  // Properties of the specification

  /** Declaring a fresh name records its declaration with the declared type, and its value or null. */
  lemma DeclareFresh(s: Store, d: VariableDeclaration)
    requires ValidStore(s) && d.name !in s.variables
    ensures var r := Declare(s, d);
            r.store.variables == s.variables[d.name := VmVariableDeclaration(d.name, VmTypeIdentifierReference(d.typeName.name))]
            && (d.expression.None? ==> r.outcome.Pass? && r.store.values == s.values[d.name := NullValue])
            && (d.expression.Some? && EvaluateExpression(d.expression.value).Ok? ==>
                  r.outcome.Pass? && r.store.values == s.values[d.name := EvaluateExpression(d.expression.value).value])
            && (d.expression.Some? && EvaluateExpression(d.expression.value).Err? ==>
                  r.outcome == Fail(NotImplementedException) && r.store.values == s.values && d.name !in r.store.values)
  {
  }

  /** Declaring a declared name throws the redeclaration error and changes nothing. */
  lemma RedeclarationFails(s: Store, d: VariableDeclaration)
    requires d.name in s.variables
    ensures Declare(s, d) == Step(s, Fail(EngLangRuntimeException("Variable '" + d.name + "' is already declared.")))
  {
  }

  /** Executing anything from a valid store keeps it valid and never makes `Add` throw. */
  lemma {:induction false} StatementKeepsValid(s: Store, st: Statement)
    requires ValidStore(s)
    ensures ValidStore(ExecuteStatement(s, st).store)
    ensures ExecuteStatement(s, st).outcome != Fail(ArgumentException)
    decreases st
  {
    match st
    case ParagraphStatement(p) => StatementsKeepValid(s, p.statements);
    case _ =>
  }

  lemma {:induction false} StatementsKeepValid(s: Store, sts: seq<Statement>)
    requires ValidStore(s)
    ensures ValidStore(ExecuteStatements(s, sts).store)
    ensures ExecuteStatements(s, sts).outcome != Fail(ArgumentException)
    decreases sts
  {
    if sts != [] {
      StatementKeepsValid(s, sts[0]);
      StatementsKeepValid(ExecuteStatement(s, sts[0]).store, sts[1..]);
    }
  }

  lemma {:induction false} ParagraphsKeepValid(s: Store, ps: seq<Paragraph>)
    requires ValidStore(s)
    ensures ValidStore(ExecuteParagraphs(s, ps).store)
    ensures ExecuteParagraphs(s, ps).outcome != Fail(ArgumentException)
    decreases ps
  {
    if ps != [] {
      StatementsKeepValid(s, ps[0].statements);
      ParagraphsKeepValid(ExecuteStatements(s, ps[0].statements).store, ps[1..]);
    }
  }

  /** `a` is `b` with possibly more entries: nothing is removed or overwritten. */
  predicate Extends(b: Store, a: Store) {
    (forall k :: k in a.variables ==> k in b.variables && b.variables[k] == a.variables[k])
    && (forall k :: k in a.values ==> k in b.values && b.values[k] == a.values[k])
  }

  lemma ExtendsTransitive(a: Store, b: Store, c: Store)
    requires Extends(b, a) && Extends(c, b)
    ensures Extends(c, a)
  {
  }

  /** Execution only ever adds entries. */
  lemma {:induction false} StatementExtends(s: Store, st: Statement)
    ensures Extends(ExecuteStatement(s, st).store, s)
    decreases st
  {
    match st
    case ParagraphStatement(p) => StatementsExtend(s, p.statements);
    case _ =>
  }

  lemma {:induction false} StatementsExtend(s: Store, sts: seq<Statement>)
    ensures Extends(ExecuteStatements(s, sts).store, s)
    decreases sts
  {
    if sts != [] {
      var first := ExecuteStatement(s, sts[0]);
      StatementExtends(s, sts[0]);
      if first.outcome.Pass? {
        StatementsExtend(first.store, sts[1..]);
        ExtendsTransitive(s, first.store, ExecuteStatements(s, sts).store);
      }
    }
  }

  /** Running `a + b` is running `a`, then `b` from where `a` left off unless `a` threw. */
  lemma {:induction false} StatementsAppend(s: Store, a: seq<Statement>, b: seq<Statement>)
    ensures var first := ExecuteStatements(s, a);
            ExecuteStatements(s, a + b) == if first.outcome.Fail? then first else ExecuteStatements(first.store, b)
    decreases a
  {
    if a == [] {
      assert a + b == b;
    } else {
      assert (a + b)[0] == a[0];
      assert (a + b)[1..] == a[1..] + b;
      var first := ExecuteStatement(s, a[0]);
      if first.outcome.Pass? {
        StatementsAppend(first.store, a[1..], b);
      }
    }
  }

  /** A nested paragraph runs exactly like its statements in place. */
  lemma NestedParagraphInlines(s: Store, before: seq<Statement>, p: Paragraph, after: seq<Statement>)
    ensures ExecuteStatements(s, before + [ParagraphStatement(p)] + after)
            == ExecuteStatements(s, before + p.statements + after)
  {
    StatementsAppend(s, before + [ParagraphStatement(p)], after);
    StatementsAppend(s, before, [ParagraphStatement(p)]);
    StatementsAppend(s, before + p.statements, after);
    StatementsAppend(s, before, p.statements);
    var mid := ExecuteStatements(s, before);
    if mid.outcome.Pass? {
      var nested := ExecuteStatement(mid.store, ParagraphStatement(p));
      assert ExecuteStatements(mid.store, [ParagraphStatement(p)]) == nested by {
        assert [ParagraphStatement(p)][1..] == [];
      }
    }
  }

  /** `the width is a number.` declares `width` of type `number`; running it again is a redeclaration. */
  lemma DeclarationExample()
    ensures var d := VariableDeclaration("width", TypeIdentifierReference(Some("number"), false), None);
            var once := ExecuteStatements(Store(map[], map[]), [VariableDeclarationStatement(d)]);
            once.outcome == Pass
            && once.store.variables == map["width" := VmVariableDeclaration("width", VmTypeIdentifierReference(Some("number")))]
            && once.store.values == map["width" := NullValue]
            && ExecuteStatements(once.store, [VariableDeclarationStatement(d)]).outcome
               == Fail(EngLangRuntimeException("Variable 'width' is already declared."))
  {
    var d := VariableDeclaration("width", TypeIdentifierReference(Some("number"), false), None);
    var st := VariableDeclarationStatement(d);
    assert [st][1..] == [];
    var once := ExecuteStatement(Store(map[], map[]), st);
    assert ExecuteStatements(once.store, [st]) == ExecuteStatement(once.store, st);
    assert "Variable '" + "width" + "' is already declared." == "Variable 'width' is already declared.";
  }

  /** `the width is a number equal to 5.` stores 5; a variable with an unsupported initializer is declared without a value. */
  lemma InitializerExample(e: Expression)
    requires !e.NullLiteralExpression? && !e.IntLiteralExpression? && !e.StringLiteralExpression?
    ensures var five := ExecuteStatement(Store(map[], map[]), VariableDeclarationStatement(
              VariableDeclaration("width", TypeIdentifierReference(Some("number"), false), Some(IntLiteralExpression(5)))));
            five.outcome == Pass && five.store.values == map["width" := IntValue(5)]
    ensures var bad := ExecuteStatement(Store(map[], map[]), VariableDeclarationStatement(
              VariableDeclaration("width", TypeIdentifierReference(Some("number"), false), Some(e))));
            bad.outcome == Fail(NotImplementedException) && "width" in bad.store.variables && bad.store.values == map[]
  {
  }

  // ---------------------------------------------------------------------------
  // The machine

  class EngLangVm {
    var variables: map<string, VmVariableDeclaration>
    var variableValues: map<string, Value>

    function State(): Store
      reads this
    {
      Store(variables, variableValues)
    }

    ghost predicate Valid()
      reads this
    {
      ValidStore(State())
    }

    constructor()
      ensures Valid()
      ensures variables == map[] && variableValues == map[]
    {
      variables := map[];
      variableValues := map[];
    }

    /** The declaration of a variable, or null when there is none. */
    function GetVariableDeclaration(variableName: string): (r: Option<VmVariableDeclaration>)
      reads this
      ensures r.Some? <==> variableName in variables
      ensures r.Some? ==> r.value == variables[variableName]
    {
      if variableName in variables then Some(variables[variableName]) else None
    }

    /** The value of a variable; a variable without a stored value is an error. */
    function GetVariableValue(variableName: string): (r: Result<Value>)
      reads this
      ensures r.Ok? <==> variableName in variableValues
      ensures r.Ok? ==> r.value == variableValues[variableName]
      ensures r.Err? ==> r.error == EngLangRuntimeException("Variable '" + variableName + "' is not defined.")
    {
      if variableName in variableValues then Ok(variableValues[variableName]) else Err(NotDefined(variableName))
    }

    /** Runs the paragraphs of a parsed program in order; the parser producing them is not part of this model. */
    method ExecuteCode(paragraphs: seq<Paragraph>) returns (outcome: Outcome)
      modifies this
      ensures Step(State(), outcome) == ExecuteParagraphs(old(State()), paragraphs)
      ensures old(Valid()) ==> Valid() && outcome != Fail(ArgumentException)
    {
      ghost var start := State();
      if ValidStore(start) {
        ParagraphsKeepValid(start, paragraphs);
      }
      var i := 0;
      while i < |paragraphs|
        invariant 0 <= i <= |paragraphs|
        invariant ExecuteParagraphs(start, paragraphs) == ExecuteParagraphs(State(), paragraphs[i..])
      {
        assert paragraphs[i..][1..] == paragraphs[i + 1..];
        outcome := InterpretParagraph(paragraphs[i]);
        if outcome.Fail? {
          return;
        }
        i := i + 1;
      }
      return Pass;
    }

    method InterpretParagraph(paragraph: Paragraph) returns (outcome: Outcome)
      modifies this
      ensures Step(State(), outcome) == ExecuteStatements(old(State()), paragraph.statements)
      ensures old(Valid()) ==> Valid() && outcome != Fail(ArgumentException)
      decreases paragraph, 0
    {
      ghost var start := State();
      if ValidStore(start) {
        StatementsKeepValid(start, paragraph.statements);
      }
      var sts := paragraph.statements;
      var i := 0;
      while i < |sts|
        invariant 0 <= i <= |sts|
        invariant ExecuteStatements(start, sts) == ExecuteStatements(State(), sts[i..])
      {
        assert sts[i..][1..] == sts[i + 1..];
        outcome := InterpretStatement(sts[i]);
        if outcome.Fail? {
          return;
        }
        i := i + 1;
      }
      return Pass;
    }

    method InterpretStatement(statement: Statement) returns (outcome: Outcome)
      modifies this
      ensures Step(State(), outcome) == ExecuteStatement(old(State()), statement)
      ensures old(Valid()) ==> Valid() && outcome != Fail(ArgumentException)
      decreases statement, 1
    {
      ghost var start := State();
      if ValidStore(start) {
        StatementKeepsValid(start, statement);
      }
      match statement {
        case VariableDeclarationStatement(declaration) =>
          if declaration.name in variables {
            return Fail(AlreadyDeclared(declaration.name));
          }
          var variableType := VmTypeIdentifierReference(declaration.typeName.name);
          variables := variables[declaration.name := VmVariableDeclaration(declaration.name, variableType)];
          var value := NullValue;
          if declaration.expression.Some? {
            var evaluated := EvaluateExpression(declaration.expression.value);
            if evaluated.Err? {
              return Fail(evaluated.error);
            }
            value := evaluated.value;
          }
          if declaration.name in variableValues {
            return Fail(ArgumentException);
          }
          variableValues := variableValues[declaration.name := value];
          return Pass;
        case InvalidStatement(_) =>
          return Fail(InvalidOperationException);
        case ParagraphStatement(paragraph) =>
          outcome := InterpretParagraph(paragraph);
        case AssignmentStatement(_) =>
          return Fail(NotImplementedException);
        case _ =>
          return Pass;
      }
    }
  }
}
