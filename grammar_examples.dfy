/**
 * Token lists taken from the parser's tests, parsed with the corrected root loop and the
 * corrected statement-end check. The lexer emits no identifiers or keywords, so each example
 * starts from the tokens the test's text stands for.
 */
module GrammarExamples {
  import opened Wrappers
  import opened Tokens
  import Syntax
  import opened Grammar
  import GrammarShapes

  // ---------------------------------------------------------------------------
  // One step at a time

  /** `match` on a token of the wanted type, with no newlines before it, steps over it. */
  lemma MatchHit(toks: seq<Token>, i: nat, t: TokenType)
    requires InRange(toks, i) && toks[i].tokenType == t && t != Newline && t != EndOfFile
    ensures Match(toks, i, t) == Matched(true, i + 1)
  {
    SkipNewlinesStays(toks, i);
  }

  /** `match` on a token of another type, with no newlines before it, stays. */
  lemma MatchMiss(toks: seq<Token>, i: nat, t: TokenType)
    requires InRange(toks, i) && toks[i].tokenType != Newline && toks[i].tokenType != t
    ensures Match(toks, i, t) == Matched(false, i)
  {
    SkipNewlinesStays(toks, i);
  }

  /** A type name followed by a token that is neither `<` nor a line break: no generics. */
  lemma TypeIdentifierPlain(toks: seq<Token>, i: nat)
    requires InRange(toks, i + 1) && toks[i].tokenType == Identifier
    requires toks[i + 1].tokenType != Newline && toks[i + 1].tokenType != LessThan
    ensures TypeIdentifier(toks, i) == Parsed(Success(Syntax.TypeIdentifier(toks[i], [])), i + 1)
  {
    ConsumeAt(toks, i, Identifier, "Expected name identifier of type");
    MatchMiss(toks, i + 1, LessThan);
  }

  /** A declared type name followed by a token that is neither `<` nor a line break: no generics. */
  lemma TypeDeclarationPlain(toks: seq<Token>, i: nat)
    requires InRange(toks, i + 1) && toks[i].tokenType == Identifier
    requires toks[i + 1].tokenType != Newline && toks[i + 1].tokenType != LessThan
    ensures TypeDeclaration(toks, i) == Parsed(Success(Syntax.TypeDeclaration(toks[i], [])), i + 1)
  {
    ConsumeAt(toks, i, Identifier, "Expected name identifier of type");
    MatchMiss(toks, i + 1, LessThan);
  }

  /** A root pass that parses a declaration from a declaration keyword keeps it and moves on. */
  lemma RootPassParses(rules: Rules, toks: seq<Token>, s: LoopState, d: Syntax.InSourceDeclaration, next: nat)
    requires InRange(toks, s.index) && rules.Valid() && !AtEnd(toks, s.index)
    requires InSourceDeclaration(rules, toks, s.index) == Parsed(Success(d), next)
    requires SkipNewlines(toks, s.index) < next
    ensures RootPassIntended(rules, toks, s) == LoopState(next, s.declarations + [d], s.errors)
  {
  }

  // ---------------------------------------------------------------------------
  // An empty struct

  /** `struct FooBar {` newline, a comment line, `}`: the comment takes its own line break. */
  function EmptyStruct(): seq<Token>
  {
    [ Token(KeywordStruct, 1, 1, "struct", false), Token(Identifier, 1, 8, "FooBar", false),
      Token(LeadingBrace, 1, 15, "{", false), Token(Newline, 1, 16, "\n", false),
      Token(TrailingBrace, 3, 1, "}", false), Token(EndOfFile, 3, 2, "", false) ]
  }

  /** The struct declaration of EmptyStruct: named FooBar, no generics, no variables. */
  lemma EmptyStructDeclaration(rules: Rules)
    requires rules.Valid()
    ensures StructureDeclaration(rules, EmptyStruct(), 0)
         == Parsed(Success(Syntax.StructDeclaration(Syntax.TypeDeclaration(EmptyStruct()[1], []), [])), 5)
  {
    var toks := EmptyStruct();
    assert toks[0].tokenType == KeywordStruct && toks[1].tokenType == Identifier && toks[2].tokenType == LeadingBrace;
    assert toks[3].tokenType == Newline && toks[4].tokenType == TrailingBrace;
    ConsumeAt(toks, 0, KeywordStruct, "Expected 'struct' keyword");
    TypeDeclarationPlain(toks, 1);
    ConsumeAt(toks, 2, LeadingBrace, "Expected '{' after struct type");
    SkipNewlinesSteps(toks, 3);
    SkipNewlinesStays(toks, 4);
    assert Match(toks, 3, TrailingBrace) == Matched(true, 5);
    assert StructBody(rules, toks, 3, []) == Parsed(Success([]), 5);
  }

  /** The test's empty struct parses to one struct declaration named FooBar with no variables. */
  lemma EmptyStructParses(rules: Rules)
    requires rules.Valid()
    ensures ParseTokensIntended(rules, EmptyStruct(), [])
         == Success(Syntax.SourceFile(
              [Syntax.StructureDecl(Syntax.StructDeclaration(Syntax.TypeDeclaration(EmptyStruct()[1], []), []))],
              EmptyStruct()[5]))
  {
    var toks := EmptyStruct();
    var d := Syntax.StructureDecl(Syntax.StructDeclaration(Syntax.TypeDeclaration(toks[1], []), []));
    EmptyStructDeclaration(rules);
    SkipNewlinesStays(toks, 0);
    assert InSourceDeclaration(rules, toks, 0) == Parsed(Success(d), 5);
    RootPassParses(rules, toks, LoopState(0, [], []), d, 5);
    assert SourceFileLoopIntended(rules, toks, LoopState(0, [], [])) == LoopState(5, [d], []);
  }

  // ---------------------------------------------------------------------------
  // Root variable declarations

  /** `var foo = 123` newline `const bar: String = "abc"` newline `var fizz: UInt8`. */
  function RootVariables(): seq<Token>
  {
    [ Token(KeywordVar, 1, 1, "var", false), Token(Identifier, 1, 5, "foo", false),
      Token(Equal, 1, 9, "=", false), Token(IntegerLiteral, 1, 11, "123", false),
      Token(Newline, 1, 14, "\n", false),
      Token(KeywordConst, 2, 1, "const", false), Token(Identifier, 2, 7, "bar", false),
      Token(Colon, 2, 10, ":", false), Token(Identifier, 2, 12, "String", false),
      Token(Equal, 2, 19, "=", false), Token(StringLiteral, 2, 21, "\"abc\"", false),
      Token(Newline, 2, 26, "\n", false),
      Token(KeywordVar, 3, 1, "var", false), Token(Identifier, 3, 5, "fizz", false),
      Token(Colon, 3, 9, ":", false), Token(Identifier, 3, 11, "UInt8", false),
      Token(EndOfFile, 3, 16, "", false) ]
  }

  /** A variable tail with only a value: `= value`, then the end of the statement. */
  lemma TailWithValue(rules: Rules, toks: seq<Token>, i: nat, x: Syntax.Expression, n: nat)
    requires InRange(toks, i + 1) && rules.Valid() && toks[i].tokenType == Equal
    requires rules.expression(toks, i + 1) == Parsed(Success(x), n) && n < |toks| && StatementEnded(toks, n)
    ensures VariableTail(rules, toks, i) == Parsed(Success((None, Some(x))), n)
  {
    MatchMiss(toks, i, Colon);
    MatchHit(toks, i, Equal);
    hide Match, TypeIdentifier, Rules.Valid;
  }

  /** A variable tail with a type and a value: `: Type = value`, then the end of the statement. */
  lemma TailWithTypeAndValue(rules: Rules, toks: seq<Token>, i: nat, y: Syntax.Expression, n: nat)
    requires InRange(toks, i + 3) && rules.Valid() && toks[i].tokenType == Colon
    requires toks[i + 1].tokenType == Identifier && toks[i + 2].tokenType == Equal
    requires rules.expression(toks, i + 3) == Parsed(Success(y), n) && n < |toks| && StatementEnded(toks, n)
    ensures VariableTail(rules, toks, i) == Parsed(Success((Some(Syntax.TypeIdentifier(toks[i + 1], [])), Some(y))), n)
  {
    MatchHit(toks, i, Colon);
    TypeIdentifierPlain(toks, i + 1);
    MatchHit(toks, i + 2, Equal);
    hide Match, TypeIdentifier, Rules.Valid;
  }

  /** A variable tail with only a type: `: Type`, then the end of the file. */
  lemma TailWithType(rules: Rules, toks: seq<Token>, i: nat)
    requires InRange(toks, i + 2) && rules.Valid() && toks[i].tokenType == Colon
    requires toks[i + 1].tokenType == Identifier && toks[i + 2].tokenType == EndOfFile
    ensures VariableTail(rules, toks, i) == Parsed(Success((Some(Syntax.TypeIdentifier(toks[i + 1], [])), None)), i + 2)
  {
    MatchHit(toks, i, Colon);
    TypeIdentifierPlain(toks, i + 1);
    MatchMiss(toks, i + 2, Equal);
    hide Match, TypeIdentifier, Rules.Valid;
  }

  /** A variable declaration is its keyword, the name right after it, and its tail. */
  lemma VariableDeclarationOf(rules: Rules, toks: seq<Token>, i: nat, m: Syntax.Mutability,
                              typed: Option<Syntax.TypeIdentifier>, value: Option<Syntax.Expression>, n: nat)
    requires InRange(toks, i + 2) && rules.Valid() && toks[i + 1].tokenType == Identifier
    requires VariableMutability(toks, i) == Parsed(Success(m), i + 1)
    requires VariableTail(rules, toks, i + 2) == Parsed(Success((typed, value)), n)
    ensures Grammar.VariableDeclaration(rules, toks, i)
         == Parsed(Success(Syntax.VariableDeclaration(m, toks[i + 1], typed, value)), n)
  {
    ConsumeAt(toks, i + 1, Identifier, "Expected variable name identifier");
    hide VariableMutability, VariableTail, Consume, Rules.Valid;
  }

  /** `const` at the current token. */
  lemma ConstantKeywordAt(toks: seq<Token>, i: nat)
    requires InRange(toks, i) && toks[i].tokenType == KeywordConst
    ensures VariableMutability(toks, i) == Parsed(Success(Syntax.Constant), i + 1)
  {
    SkipNewlinesStays(toks, i);
    MatchMiss(toks, i, KeywordVar);
    ConsumeAt(toks, i, KeywordConst, "Expected 'const' or 'var' keyword in variable declaration");
  }

  /** `const name: Type = value` followed by the end of the statement. */
  lemma ConstantWithTypeAndValue(rules: Rules, toks: seq<Token>, i: nat, y: Syntax.Expression, n: nat)
    requires InRange(toks, i + 5) && rules.Valid()
    requires toks[i].tokenType == KeywordConst && toks[i + 1].tokenType == Identifier && toks[i + 2].tokenType == Colon
    requires toks[i + 3].tokenType == Identifier && toks[i + 4].tokenType == Equal
    requires rules.expression(toks, i + 5) == Parsed(Success(y), n) && n < |toks| && StatementEnded(toks, n)
    ensures Grammar.VariableDeclaration(rules, toks, i)
         == Parsed(Success(Syntax.VariableDeclaration(Syntax.Constant, toks[i + 1], Some(Syntax.TypeIdentifier(toks[i + 3], [])), Some(y))), n)
  {
    hide Grammar.VariableDeclaration, VariableTail, VariableMutability, Rules.Valid;
    ConstantKeywordAt(toks, i);
    TailWithTypeAndValue(rules, toks, i + 2, y, n);
    VariableDeclarationOf(rules, toks, i, Syntax.Constant, Some(Syntax.TypeIdentifier(toks[i + 3], [])), Some(y), n);
  }

  /** `var foo = 123`, given an expression rule that reads the literal as one token. */
  lemma FirstVariable(rules: Rules, x: Syntax.Expression)
    requires rules.Valid() && rules.expression(RootVariables(), 3) == Parsed(Success(x), 4)
    ensures Grammar.VariableDeclaration(rules, RootVariables(), 0)
         == Parsed(Success(Syntax.VariableDeclaration(Syntax.Variable, RootVariables()[1], None, Some(x))), 4)
  {
    hide Grammar.VariableDeclaration, VariableTail, VariableMutability, Rules.Valid;
    var toks := RootVariables();
    assert toks[0].tokenType == KeywordVar && toks[1].tokenType == Identifier;
    assert toks[2].tokenType == Equal && toks[4].tokenType == Newline;
    VariableKeywordAt(toks, 0);
    TailWithValue(rules, toks, 2, x, 4);
    VariableDeclarationOf(rules, toks, 0, Syntax.Variable, None, Some(x), 4);
  }

  /** `const bar: String = "abc"`, given an expression rule that reads the literal as one token. */
  lemma SecondVariable(rules: Rules, y: Syntax.Expression)
    requires rules.Valid() && rules.expression(RootVariables(), 10) == Parsed(Success(y), 11)
    ensures Grammar.VariableDeclaration(rules, RootVariables(), 5)
         == Parsed(Success(Syntax.VariableDeclaration(
              Syntax.Constant, RootVariables()[6], Some(Syntax.TypeIdentifier(RootVariables()[8], [])), Some(y))), 11)
  {
    hide Grammar.VariableDeclaration, VariableTail, VariableMutability, Rules.Valid;
    var toks := RootVariables();
    assert toks[5].tokenType == KeywordConst;
    assert toks[6].tokenType == Identifier;
    assert toks[7].tokenType == Colon;
    assert toks[8].tokenType == Identifier;
    assert toks[9].tokenType == Equal;
    assert StatementEnded(toks, 11) by { assert toks[11].tokenType == Newline; }
    ConstantWithTypeAndValue(rules, toks, 5, y, 11);
  }

  /** `var fizz: UInt8` at the end of the file. */
  lemma ThirdVariable(rules: Rules)
    requires rules.Valid()
    ensures Grammar.VariableDeclaration(rules, RootVariables(), 12)
         == Parsed(Success(Syntax.VariableDeclaration(
              Syntax.Variable, RootVariables()[13], Some(Syntax.TypeIdentifier(RootVariables()[15], [])), None)), 16)
  {
    hide Grammar.VariableDeclaration, VariableTail, VariableMutability, Rules.Valid;
    var toks := RootVariables();
    assert toks[12].tokenType == KeywordVar && toks[13].tokenType == Identifier && toks[14].tokenType == Colon;
    assert toks[15].tokenType == Identifier && toks[16].tokenType == EndOfFile;
    VariableKeywordAt(toks, 12);
    TailWithType(rules, toks, 14);
    VariableDeclarationOf(rules, toks, 12, Syntax.Variable, Some(Syntax.TypeIdentifier(toks[15], [])), None, 16);
  }

  /** A root declaration that starts with `var` or `const` is a variable declaration. */
  lemma InSourceVariable(rules: Rules, toks: seq<Token>, i: nat, d: Syntax.VariableDeclaration, n: nat)
    requires InRange(toks, i) && rules.Valid()
    requires IsMutabilityKeyword(toks[SkipNewlines(toks, i)].tokenType)
    requires Grammar.VariableDeclaration(rules, toks, SkipNewlines(toks, i)) == Parsed(Success(d), n)
    ensures InSourceDeclaration(rules, toks, i) == Parsed(Success(Syntax.VariableDecl(d)), n)
  {
    hide Grammar.VariableDeclaration, StructureDeclaration, FunctionDeclaration, Rules.Valid;
  }

  /** One pass of the root loop, away from the end of the file. */
  lemma LoopStep(rules: Rules, toks: seq<Token>, s: LoopState, t: LoopState)
    requires InRange(toks, s.index) && rules.Valid() && !AtEnd(toks, s.index)
    requires RootPassIntended(rules, toks, s) == t
    ensures InRange(toks, t.index)
    ensures SourceFileLoopIntended(rules, toks, s) == SourceFileLoopIntended(rules, toks, t)
  {
    hide RootPassIntended, Rules.Valid;
  }

  /** At the end of the file the root loop stops. */
  lemma LoopEnd(rules: Rules, toks: seq<Token>, s: LoopState)
    requires InRange(toks, s.index) && rules.Valid() && AtEnd(toks, s.index)
    ensures SourceFileLoopIntended(rules, toks, s) == s
  {
  }

  /** The three declarations of RootVariables, in order. */
  function RootVariableDeclarations(x: Syntax.Expression, y: Syntax.Expression): seq<Syntax.InSourceDeclaration>
  {
    var toks := RootVariables();
    [ Syntax.VariableDecl(Syntax.VariableDeclaration(Syntax.Variable, toks[1], None, Some(x))),
      Syntax.VariableDecl(Syntax.VariableDeclaration(Syntax.Constant, toks[6], Some(Syntax.TypeIdentifier(toks[8], [])), Some(y))),
      Syntax.VariableDecl(Syntax.VariableDeclaration(Syntax.Variable, toks[13], Some(Syntax.TypeIdentifier(toks[15], [])), None)) ]
  }

  /** The first pass reads `var foo = 123` and stops at the line break. */
  lemma FirstPass(rules: Rules, x: Syntax.Expression, y: Syntax.Expression)
    requires rules.Valid() && rules.expression(RootVariables(), 3) == Parsed(Success(x), 4)
    ensures RootPassIntended(rules, RootVariables(), LoopState(0, [], []))
         == LoopState(4, RootVariableDeclarations(x, y)[..1], [])
  {
    hide Grammar.VariableDeclaration, InSourceDeclaration, RootPassIntended, SkipNewlines, Rules.Valid;
    var toks := RootVariables();
    var d := RootVariableDeclarations(x, y);
    assert toks[0].tokenType == KeywordVar;
    SkipNewlinesStays(toks, 0);
    FirstVariable(rules, x);
    InSourceVariable(rules, toks, 0, d[0].variable, 4);
    RootPassParses(rules, toks, LoopState(0, [], []), d[0], 4);
    assert [] + [d[0]] == d[..1];
  }

  /** The second pass skips the line break and reads `const bar: String = "abc"`. */
  lemma SecondPass(rules: Rules, x: Syntax.Expression, y: Syntax.Expression)
    requires rules.Valid() && rules.expression(RootVariables(), 10) == Parsed(Success(y), 11)
    ensures RootPassIntended(rules, RootVariables(), LoopState(4, RootVariableDeclarations(x, y)[..1], []))
         == LoopState(11, RootVariableDeclarations(x, y)[..2], [])
  {
    hide Grammar.VariableDeclaration, InSourceDeclaration, RootPassIntended, SkipNewlines, Rules.Valid;
    var toks := RootVariables();
    var d := RootVariableDeclarations(x, y);
    assert toks[4].tokenType == Newline && toks[5].tokenType == KeywordConst;
    SkipNewlinesSteps(toks, 4);
    SkipNewlinesStays(toks, 5);
    SecondVariable(rules, y);
    InSourceVariable(rules, toks, 4, d[1].variable, 11);
    RootPassParses(rules, toks, LoopState(4, d[..1], []), d[1], 11);
    assert d[..1] + [d[1]] == d[..2];
  }

  /** The third pass skips the line break and reads `var fizz: UInt8` up to the end of the file. */
  lemma ThirdPass(rules: Rules, x: Syntax.Expression, y: Syntax.Expression)
    requires rules.Valid()
    ensures RootPassIntended(rules, RootVariables(), LoopState(11, RootVariableDeclarations(x, y)[..2], []))
         == LoopState(16, RootVariableDeclarations(x, y), [])
  {
    hide Grammar.VariableDeclaration, InSourceDeclaration, RootPassIntended, SkipNewlines, Rules.Valid;
    var toks := RootVariables();
    var d := RootVariableDeclarations(x, y);
    assert toks[11].tokenType == Newline && toks[12].tokenType == KeywordVar;
    SkipNewlinesSteps(toks, 11);
    SkipNewlinesStays(toks, 12);
    ThirdVariable(rules);
    InSourceVariable(rules, toks, 11, d[2].variable, 16);
    RootPassParses(rules, toks, LoopState(11, d[..2], []), d[2], 16);
    assert d[..2] + [d[2]] == d;
  }

  /** The root loop over the test's three variable lines: one pass per line, no errors. */
  lemma RootVariablesLoop(rules: Rules, x: Syntax.Expression, y: Syntax.Expression)
    requires rules.Valid()
    requires rules.expression(RootVariables(), 3) == Parsed(Success(x), 4)
    requires rules.expression(RootVariables(), 10) == Parsed(Success(y), 11)
    ensures SourceFileLoopIntended(rules, RootVariables(), LoopState(0, [], []))
         == LoopState(16, RootVariableDeclarations(x, y), [])
  {
    hide RootPassIntended, SourceFileLoopIntended, Rules.Valid;
    var toks := RootVariables();
    var d := RootVariableDeclarations(x, y);
    assert !AtEnd(toks, 0) && !AtEnd(toks, 4) && !AtEnd(toks, 11) && AtEnd(toks, 16);
    FirstPass(rules, x, y);
    LoopStep(rules, toks, LoopState(0, [], []), LoopState(4, d[..1], []));
    SecondPass(rules, x, y);
    LoopStep(rules, toks, LoopState(4, d[..1], []), LoopState(11, d[..2], []));
    ThirdPass(rules, x, y);
    LoopStep(rules, toks, LoopState(11, d[..2], []), LoopState(16, d, []));
    LoopEnd(rules, toks, LoopState(16, d, []));
  }

  /** The test's three root variables parse in order: `foo` a variable with a value and no type,
      `bar` a constant with a type and a value, `fizz` a variable with a type and no value. */
  lemma RootVariablesParse(rules: Rules, x: Syntax.Expression, y: Syntax.Expression)
    requires rules.Valid()
    requires rules.expression(RootVariables(), 3) == Parsed(Success(x), 4)
    requires rules.expression(RootVariables(), 10) == Parsed(Success(y), 11)
    ensures ParseTokensIntended(rules, RootVariables(), [])
         == Success(Syntax.SourceFile(RootVariableDeclarations(x, y), RootVariables()[16]))
  {
    RootVariablesLoop(rules, x, y);
  }

  // ---------------------------------------------------------------------------
  // A struct with typed fields

  /** `struct FooBar {` newline `var foo: UInt8` newline `const bar: Bool` newline `}`. */
  function StructWithFields(): seq<Token>
  {
    [ Token(KeywordStruct, 1, 1, "struct", false), Token(Identifier, 1, 8, "FooBar", false),
      Token(LeadingBrace, 1, 15, "{", false), Token(Newline, 1, 16, "\n", false),
      Token(KeywordVar, 2, 2, "var", false), Token(Identifier, 2, 6, "foo", false),
      Token(Colon, 2, 9, ":", false), Token(Identifier, 2, 11, "UInt8", false),
      Token(Newline, 2, 16, "\n", false),
      Token(KeywordConst, 3, 2, "const", false), Token(Identifier, 3, 8, "bar", false),
      Token(Colon, 3, 11, ":", false), Token(Identifier, 3, 13, "Bool", false),
      Token(Newline, 3, 17, "\n", false),
      Token(TrailingBrace, 4, 1, "}", false), Token(EndOfFile, 4, 2, "", false) ]
  }

  /** The two fields the test expects: `foo` a variable of type UInt8, `bar` a constant of type Bool. */
  function StructFields(): seq<Syntax.VariableDeclaration>
  {
    var toks := StructWithFields();
    [ Syntax.VariableDeclaration(Syntax.Variable, toks[5], Some(Syntax.TypeIdentifier(toks[7], [])), None),
      Syntax.VariableDeclaration(Syntax.Constant, toks[10], Some(Syntax.TypeIdentifier(toks[12], [])), None) ]
  }

  /** As written, the first field's tail is reported unterminated at `const` on the next line. */
  lemma StructFieldsAsWritten(rules: Rules)
    requires rules.Valid()
    ensures VariableTailAsWritten(rules, StructWithFields(), 6)
         == Parsed(Failure(UnexpectedToken(KeywordConst, "const", UnterminatedStatementMessage)), 9)
  {
    hide VariableTailAsWritten, SkipNewlines, Rules.Valid;
    var toks := StructWithFields();
    assert toks[6].tokenType == Colon && toks[7].tokenType == Identifier;
    assert toks[8].tokenType == Newline && toks[9].tokenType == KeywordConst && toks[9].lexeme == "const";
    SkipNewlinesSteps(toks, 8);
    SkipNewlinesStays(toks, 9);
    TypedTerminatorLost(rules, toks, 6);
  }

  /** A declaration with a type and no value, ended by a line break before a token other than `<` or `=`. */
  lemma TypedDeclarationOnItsLine(rules: Rules, toks: seq<Token>, i: nat, m: Syntax.Mutability)
    requires InRange(toks, i + 4) && rules.Valid()
    requires VariableMutability(toks, i) == Parsed(Success(m), i + 1)
    requires toks[i + 1].tokenType == Identifier && toks[i + 2].tokenType == Colon
    requires toks[i + 3].tokenType == Identifier && toks[i + 4].tokenType == Newline
    requires var t := toks[SkipNewlines(toks, i + 4)].tokenType; t != LessThan && t != Equal
    ensures Grammar.VariableDeclaration(rules, toks, i)
         == Parsed(Success(Syntax.VariableDeclaration(m, toks[i + 1], Some(Syntax.TypeIdentifier(toks[i + 3], [])), None)),
                   SkipNewlines(toks, i + 4))
  {
    hide Grammar.VariableDeclaration, VariableTail, VariableMutability, SkipNewlines, Rules.Valid;
    TypedTerminatorKept(rules, toks, i + 2);
    VariableDeclarationOf(rules, toks, i, m, Some(Syntax.TypeIdentifier(toks[i + 3], [])), None, SkipNewlines(toks, i + 4));
  }

  /** `var foo: UInt8`, ended by the line break before `const`. */
  lemma FirstField(rules: Rules)
    requires rules.Valid()
    ensures Grammar.VariableDeclaration(rules, StructWithFields(), 4) == Parsed(Success(StructFields()[0]), 9)
  {
    hide Grammar.VariableDeclaration, VariableMutability, SkipNewlines, Rules.Valid;
    var toks := StructWithFields();
    assert toks[4].tokenType == KeywordVar && toks[5].tokenType == Identifier && toks[6].tokenType == Colon;
    assert toks[7].tokenType == Identifier && toks[8].tokenType == Newline && toks[9].tokenType == KeywordConst;
    SkipNewlinesSteps(toks, 8);
    SkipNewlinesStays(toks, 9);
    VariableKeywordAt(toks, 4);
    TypedDeclarationOnItsLine(rules, toks, 4, Syntax.Variable);
  }

  /** `const bar: Bool`, ended by the line break before `}`. */
  lemma SecondField(rules: Rules)
    requires rules.Valid()
    ensures Grammar.VariableDeclaration(rules, StructWithFields(), 9) == Parsed(Success(StructFields()[1]), 14)
  {
    hide Grammar.VariableDeclaration, VariableMutability, SkipNewlines, Rules.Valid;
    var toks := StructWithFields();
    assert toks[9].tokenType == KeywordConst && toks[10].tokenType == Identifier && toks[11].tokenType == Colon;
    assert toks[12].tokenType == Identifier && toks[13].tokenType == Newline && toks[14].tokenType == TrailingBrace;
    SkipNewlinesSteps(toks, 13);
    SkipNewlinesStays(toks, 14);
    ConstantKeywordAt(toks, 9);
    TypedDeclarationOnItsLine(rules, toks, 9, Syntax.Constant);
  }

  /** The member loop's first turn skips the line break after `{` and reads `foo`. */
  lemma StructFieldsFirstTurn(rules: Rules)
    requires rules.Valid()
    ensures StructBody(rules, StructWithFields(), 3, []) == StructBody(rules, StructWithFields(), 9, [StructFields()[0]])
  {
    hide Grammar.VariableDeclaration, StructBody, Match, SkipNewlines, Rules.Valid;
    var toks := StructWithFields();
    assert toks[3].tokenType == Newline && toks[4].tokenType == KeywordVar;
    assert !AtEnd(toks, 3);
    SkipNewlinesSteps(toks, 3);
    SkipNewlinesStays(toks, 4);
    MatchMiss(toks, 4, TrailingBrace);
    FirstField(rules);
    GrammarShapes.StructBodyTurn(rules, toks, 3, []);
    assert [] + [StructFields()[0]] == [StructFields()[0]];
  }

  /** The second turn reads `bar`. */
  lemma StructFieldsSecondTurn(rules: Rules)
    requires rules.Valid()
    ensures StructBody(rules, StructWithFields(), 9, [StructFields()[0]]) == StructBody(rules, StructWithFields(), 14, StructFields())
  {
    hide Grammar.VariableDeclaration, StructBody, Match, SkipNewlines, Rules.Valid;
    var toks := StructWithFields();
    var v := StructFields();
    assert toks[9].tokenType == KeywordConst && !AtEnd(toks, 9);
    MatchMiss(toks, 9, TrailingBrace);
    SecondField(rules);
    GrammarShapes.StructBodyTurn(rules, toks, 9, [v[0]]);
    assert [v[0]] + [v[1]] == v;
  }

  /** The member loop reads the two fields and stops right after `}`. */
  lemma StructFieldsBody(rules: Rules)
    requires rules.Valid()
    ensures StructBody(rules, StructWithFields(), 3, []) == Parsed(Success(StructFields()), 15)
  {
    hide Grammar.VariableDeclaration, Match, SkipNewlines, Rules.Valid;
    var toks := StructWithFields();
    assert toks[14].tokenType == TrailingBrace && !AtEnd(toks, 14);
    StructFieldsFirstTurn(rules);
    StructFieldsSecondTurn(rules);
    MatchHit(toks, 14, TrailingBrace);
  }

  /** A struct without generics: `struct`, its name, `{`, then the member loop. */
  lemma StructureDeclarationOf(rules: Rules, toks: seq<Token>, i: nat, vars: seq<Syntax.VariableDeclaration>, n: nat)
    requires InRange(toks, i + 3) && rules.Valid()
    requires toks[i].tokenType == KeywordStruct && toks[i + 1].tokenType == Identifier && toks[i + 2].tokenType == LeadingBrace
    requires StructBody(rules, toks, i + 3, []) == Parsed(Success(vars), n)
    ensures StructureDeclaration(rules, toks, i)
         == Parsed(Success(Syntax.StructDeclaration(Syntax.TypeDeclaration(toks[i + 1], []), vars)), n)
  {
    hide StructBody, Rules.Valid;
    ConsumeAt(toks, i, KeywordStruct, "Expected 'struct' keyword");
    TypeDeclarationPlain(toks, i + 1);
    ConsumeAt(toks, i + 2, LeadingBrace, "Expected '{' after struct type");
  }

  /** A root declaration that starts with `struct` is the struct declaration read there. */
  lemma InSourceStructure(rules: Rules, toks: seq<Token>, i: nat, d: Syntax.StructDeclaration, n: nat)
    requires InRange(toks, i) && rules.Valid()
    requires toks[SkipNewlines(toks, i)].tokenType == KeywordStruct
    requires StructureDeclaration(rules, toks, SkipNewlines(toks, i)) == Parsed(Success(d), n)
    ensures InSourceDeclaration(rules, toks, i) == Parsed(Success(Syntax.StructureDecl(d)), n)
  {
    hide Grammar.VariableDeclaration, StructureDeclaration, FunctionDeclaration, Rules.Valid;
  }

  /** The struct the test expects: FooBar, without generics, holding `foo` and `bar`. */
  function StructWithFieldsDeclaration(): Syntax.InSourceDeclaration
  {
    Syntax.StructureDecl(Syntax.StructDeclaration(Syntax.TypeDeclaration(StructWithFields()[1], []), StructFields()))
  }

  /** The only root pass reads the whole struct, up to and including its `}`. */
  lemma StructWithFieldsPass(rules: Rules)
    requires rules.Valid()
    ensures RootPassIntended(rules, StructWithFields(), LoopState(0, [], []))
         == LoopState(15, [StructWithFieldsDeclaration()], [])
  {
    hide StructureDeclaration, StructBody, InSourceDeclaration, RootPassIntended, SkipNewlines, Rules.Valid;
    var toks := StructWithFields();
    var s := Syntax.StructDeclaration(Syntax.TypeDeclaration(toks[1], []), StructFields());
    assert toks[0].tokenType == KeywordStruct && toks[1].tokenType == Identifier && toks[2].tokenType == LeadingBrace;
    assert !AtEnd(toks, 0);
    SkipNewlinesStays(toks, 0);
    StructFieldsBody(rules);
    StructureDeclarationOf(rules, toks, 0, StructFields(), 15);
    InSourceStructure(rules, toks, 0, s, 15);
    RootPassParses(rules, toks, LoopState(0, [], []), Syntax.StructureDecl(s), 15);
    assert [] + [Syntax.StructureDecl(s)] == [Syntax.StructureDecl(s)];
  }

  /** Corrected, the test's struct parses to one struct named FooBar holding `foo: UInt8` and `bar: Bool`. */
  lemma StructWithFieldsParses(rules: Rules)
    requires rules.Valid()
    ensures ParseTokensIntended(rules, StructWithFields(), [])
         == Success(Syntax.SourceFile([StructWithFieldsDeclaration()], StructWithFields()[15]))
  {
    hide RootPassIntended, SourceFileLoopIntended, Rules.Valid;
    var toks := StructWithFields();
    assert !AtEnd(toks, 0) && AtEnd(toks, 15);
    StructWithFieldsPass(rules);
    LoopStep(rules, toks, LoopState(0, [], []), LoopState(15, [StructWithFieldsDeclaration()], []));
    LoopEnd(rules, toks, LoopState(15, [StructWithFieldsDeclaration()], []));
  }
}
