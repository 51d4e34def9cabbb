/**
 * A reference specification of the recursive-descent parser as pure functions
 * over a token sequence and an index. Every rule returns what the parser's
 * method returns (its value, or the error it throws) together with the index
 * where the method leaves the parser, since the index moves even when a rule
 * throws. The imperative Parser class is proved to compute exactly these.
 */
module Grammar {
  import opened Wrappers
  import opened Tokens
  import opened Syntax

  /** What a rule returns, and the token index it leaves behind. */
  datatype Parsed<+T> = Parsed(result: Result<T, ParseError>, next: nat)

  /** What `match` returns, and the token index it leaves behind. */
  datatype Matched = Matched(ok: bool, next: nat)

  /** The parser's demand on its token list: non-empty and ending with endOfFile. */
  predicate WellFormed(toks: seq<Token>)
  {
    |toks| > 0 && toks[|toks| - 1].tokenType == EndOfFile
  }

  /** A well-formed token list and an index into it. */
  predicate InRange(toks: seq<Token>, i: nat)
  {
    WellFormed(toks) && i < |toks|
  }

  /**
   * The parameter, statement and expression rules, which the parser declares
   * but does not implement, are supplied from outside. Each keeps the index
   * within the token list and never moves it back, and a statement that parses
   * consumes at least one token.
   */
  datatype Rules = Rules(
    parameter: (seq<Token>, nat) -> Parsed<Parameter>,
    statement: (seq<Token>, nat) -> Parsed<Statement>,
    expression: (seq<Token>, nat) -> Parsed<Expression>)
  {
    ghost predicate Valid()
    {
      forall toks: seq<Token>, i: nat
        {:trigger parameter(toks, i)} {:trigger expression(toks, i)} {:trigger statement(toks, i)}
        | InRange(toks, i) ::
        && i <= parameter(toks, i).next < |toks|
        && i <= expression(toks, i).next < |toks|
        && i <= statement(toks, i).next < |toks|
        && (statement(toks, i).result.Success? ==> i < statement(toks, i).next)
    }
  }

  /** An optional part of a rule: the inner rule's value, wrapped as present. */
  function Present<T>(p: Parsed<T>): (q: Parsed<Option<T>>)
    ensures q.next == p.next
    ensures q.result.Success? <==> p.result.Success?
    ensures q.result.Success? ==> q.result.value == Some(p.result.value)
  {
    if p.result.Failure? then Parsed(Failure(p.result.error), p.next) else Parsed(Success(Some(p.result.value)), p.next)
  }

  // ---------------------------------------------------------------------------
  // Helpers

  /** The parser is at its end when the current token is endOfFile. */
  predicate AtEnd(toks: seq<Token>, i: nat)
    requires InRange(toks, i)
    ensures AtEnd(toks, i) ==> SkipNewlines(toks, i) == i
  {
    toks[i].tokenType == EndOfFile
  }

  /** Steps over newline tokens, stopping at endOfFile. */
  function SkipNewlines(toks: seq<Token>, i: nat): (j: nat)
    requires InRange(toks, i)
    ensures i <= j < |toks|
    ensures forall k | i <= k < j :: toks[k].tokenType == Newline
    ensures toks[j].tokenType != Newline
    decreases |toks| - i
  {
    if toks[i].tokenType != EndOfFile && toks[i].tokenType == Newline then SkipNewlines(toks, i + 1) else i
  }

  /** `skipNewlines` is already done on the token it stops at. */
  lemma SkipNewlinesIdempotent(toks: seq<Token>, i: nat)
    requires InRange(toks, i)
    ensures SkipNewlines(toks, SkipNewlines(toks, i)) == SkipNewlines(toks, i)
  {
  }

  /** The index just past the first token after the newlines, which is not endOfFile. */
  function Past(toks: seq<Token>, i: nat): (j: nat)
    requires InRange(toks, i) && toks[SkipNewlines(toks, i)].tokenType != EndOfFile
    ensures i < j < |toks| && j - 1 == SkipNewlines(toks, i)
  {
    SkipNewlines(toks, i) + 1
  }

  /** Skips newlines, then consumes one token of type `t` if there is one. */
  function Match(toks: seq<Token>, i: nat, t: TokenType): (m: Matched)
    requires InRange(toks, i)
    ensures i <= m.next < |toks|
    ensures m.ok <==> toks[SkipNewlines(toks, i)].tokenType == t && t != EndOfFile
    ensures m.next == if m.ok then SkipNewlines(toks, i) + 1 else SkipNewlines(toks, i)
    ensures m.ok ==> i < m.next && toks[m.next - 1].tokenType == t && t != EndOfFile
    ensures m.ok ==> forall k | i <= k < m.next - 1 :: toks[k].tokenType == Newline
    ensures !m.ok ==> forall k | i <= k < m.next :: toks[k].tokenType == Newline
    ensures !m.ok ==> toks[m.next].tokenType != Newline && (toks[m.next].tokenType != t || t == EndOfFile)
  {
    var j := SkipNewlines(toks, i);
    if toks[j].tokenType != EndOfFile && toks[j].tokenType == t then Matched(true, j + 1) else Matched(false, j)
  }

  /** The loop of `willMatch` from offset position `k`, with the types still to be matched. */
  function WillMatchFrom(toks: seq<Token>, k: nat, types: seq<TokenType>): (r: bool)
    requires InRange(toks, k) && |types| > 0
    ensures r ==> Match(toks, k, types[0]).ok
    decreases |toks| - k
  {
    if toks[k].tokenType == EndOfFile then false
    else if toks[k].tokenType == Newline then WillMatchFrom(toks, k + 1, types)
    else if types[0] != toks[k].tokenType then false
    else if |types| == 1 then true
    else WillMatchFrom(toks, k + 1, types[1..])
  }

  /** The types of the non-newline tokens from `k` up to the endOfFile. */
  function Significant(toks: seq<Token>, k: nat): seq<TokenType>
    requires InRange(toks, k)
    decreases |toks| - k
  {
    if toks[k].tokenType == EndOfFile then []
    else if toks[k].tokenType == Newline then Significant(toks, k + 1)
    else [toks[k].tokenType] + Significant(toks, k + 1)
  }

  /** `willMatch` holds exactly when the non-newline tokens ahead begin with `types` before endOfFile. */
  lemma {:induction false} WillMatchIsPrefix(toks: seq<Token>, k: nat, types: seq<TokenType>)
    requires InRange(toks, k) && |types| > 0
    ensures WillMatchFrom(toks, k, types) <==> |types| <= |Significant(toks, k)| && types == Significant(toks, k)[..|types|]
    decreases |toks| - k
  {
    if toks[k].tokenType == EndOfFile {
    } else if toks[k].tokenType == Newline {
      WillMatchIsPrefix(toks, k + 1, types);
    } else {
      var rest := Significant(toks, k + 1);
      assert Significant(toks, k) == [toks[k].tokenType] + rest;
      if types[0] == toks[k].tokenType && |types| > 1 {
        WillMatchIsPrefix(toks, k + 1, types[1..]);
        if |types| <= |Significant(toks, k)| {
          assert Significant(toks, k)[..|types|] == [toks[k].tokenType] + rest[..|types| - 1];
          assert types == [types[0]] + types[1..];
        }
      }
    }
  }

  /** Consumes a token of type `t`, or throws unexpectedToken naming the token found. */
  function Consume(toks: seq<Token>, i: nat, t: TokenType, message: string): (p: Parsed<Token>)
    requires InRange(toks, i)
    ensures i <= p.next < |toks|
    ensures p.result.Success? ==> i < p.next && p.result.value == toks[p.next - 1] && p.result.value.tokenType == t
    ensures p.result.Success? <==> toks[SkipNewlines(toks, i)].tokenType == t && t != EndOfFile
    ensures p.result.Success? ==> p.next == Past(toks, i)
    ensures p.result.Failure? ==>
      && p.next == SkipNewlines(toks, i)
      && p.result.error == UnexpectedToken(toks[p.next].tokenType, toks[p.next].lexeme, message)
      && (toks[p.next].tokenType != t || t == EndOfFile)
  {
    var m := Match(toks, i, t);
    if m.ok then Parsed(Success(toks[m.next - 1]), m.next)
    else Parsed(Failure(UnexpectedToken(toks[m.next].tokenType, toks[m.next].lexeme, message)), m.next)
  }

  /** Consumes whatever token follows the newlines, or throws unexpectedEndOfFile at the end. */
  function ConsumeNext(toks: seq<Token>, i: nat): (p: Parsed<Token>)
    requires InRange(toks, i)
    ensures i <= p.next < |toks|
    ensures p.result.Success? ==>
      && p.next == SkipNewlines(toks, i) + 1
      && p.result.value == toks[p.next - 1] && p.result.value.tokenType != EndOfFile
    ensures p.result.Failure? ==>
      p.next == SkipNewlines(toks, i) && toks[p.next].tokenType == EndOfFile && p.result.error == UnexpectedEndOfFile
  {
    var j := SkipNewlines(toks, i);
    if toks[j].tokenType == EndOfFile then Parsed(Failure(UnexpectedEndOfFile), j)
    else Parsed(Success(toks[j]), j + 1)
  }

  /** The tokens that may end a statement: a line break, a closing brace or the end of the file. */
  predicate EndsStatement(t: TokenType)
  {
    t == Newline || t == TrailingBrace || t == EndOfFile
  }

  /** A statement has ended at index `i` when the token there may end it, or when a line break
      comes just before it: `match` for an optional part that is absent steps over that line break. */
  predicate StatementEnded(toks: seq<Token>, i: nat)
    requires i < |toks|
  {
    EndsStatement(toks[i].tokenType) || (0 < i && toks[i - 1].tokenType == Newline)
  }

  const UnterminatedStatementMessage := "Statement is unterminated. Statements are terminated with a newline character, or by a scope ending"

  /** Checks, without consuming anything, that a statement has ended at the current token (the
      corrected check: see VerifyStatementEndAsWritten). */
  function VerifyStatementEnd(toks: seq<Token>, i: nat): (r: Option<ParseError>)
    requires InRange(toks, i)
    ensures r.None? <==> StatementEnded(toks, i)
    ensures r.Some? ==> r.value == UnexpectedToken(toks[i].tokenType, toks[i].lexeme, UnterminatedStatementMessage)
  {
    if StatementEnded(toks, i) then None
    else Some(UnexpectedToken(toks[i].tokenType, toks[i].lexeme, UnterminatedStatementMessage))
  }

  /** The tokens error recovery stops at: the start of a declaration or the end. */
  predicate IsRecoveryPoint(t: TokenType)
  {
    t == EndOfFile || t == KeywordStruct || t == KeywordImpl || t == KeywordFunc
  }

  /** Error recovery: skips ahead to the first recovery point. */
  function Synchronize(toks: seq<Token>, i: nat): (j: nat)
    requires InRange(toks, i)
    ensures i <= j < |toks|
    ensures IsRecoveryPoint(toks[j].tokenType)
    ensures forall k | i <= k < j :: !IsRecoveryPoint(toks[k].tokenType)
    decreases |toks| - i
  {
    if IsRecoveryPoint(toks[i].tokenType) then i else Synchronize(toks, i + 1)
  }

  // ---------------------------------------------------------------------------
  // Types

  /** The keywords that begin a variable declaration. */
  predicate IsMutabilityKeyword(t: TokenType)
  {
    t == KeywordVar || t == KeywordConst
  }

  /** `var` or `const`. */
  function VariableMutability(toks: seq<Token>, i: nat): (p: Parsed<Mutability>)
    requires InRange(toks, i)
    ensures i <= p.next < |toks|
    ensures p.result.Success? ==> i < p.next
    ensures p.result.Success? <==> IsMutabilityKeyword(toks[SkipNewlines(toks, i)].tokenType)
    ensures p.result.Success? ==> (p.result.value == Variable <==> toks[SkipNewlines(toks, i)].tokenType == KeywordVar)
    ensures p.result.Success? ==> p.next == Past(toks, i)
  {
    SkipNewlinesIdempotent(toks, i);
    var m := Match(toks, i, KeywordVar);
    if m.ok then Parsed(Success(Variable), m.next)
    else
      var c := Consume(toks, m.next, KeywordConst, "Expected 'const' or 'var' keyword in variable declaration");
      if c.result.Failure? then Parsed(Failure(c.result.error), c.next) else Parsed(Success(Constant), c.next)
  }

  /** A type name with optional generic arguments `<A, B>`. */
  function TypeIdentifier(toks: seq<Token>, i: nat): (p: Parsed<Syntax.TypeIdentifier>)
    requires InRange(toks, i)
    ensures i <= p.next < |toks|
    ensures p.result.Success? ==> i < p.next && p.result.value.nameIdentifier.tokenType == Identifier
    decreases |toks| - i, 1
  {
    var name := Consume(toks, i, Identifier, "Expected name identifier of type");
    if name.result.Failure? then Parsed(Failure(name.result.error), name.next)
    else
      var lt := Match(toks, name.next, LessThan);
      if !lt.ok then Parsed(Success(Syntax.TypeIdentifier(name.result.value, [])), lt.next)
      else
        var g := SingleGenericIdentifier(toks, lt.next);
        if g.result.Failure? then Parsed(Failure(g.result.error), g.next)
        else
          var list := GenericIdentifierList(toks, g.next, [g.result.value]);
          if list.result.Failure? then Parsed(Failure(list.result.error), list.next)
          else Parsed(Success(Syntax.TypeIdentifier(name.result.value, list.result.value)), list.next)
  }

  /** A generic argument: a literal token, or a type. */
  function SingleGenericIdentifier(toks: seq<Token>, i: nat): (p: Parsed<GenericIdentifier>)
    requires InRange(toks, i)
    ensures i <= p.next < |toks|
    ensures p.result.Success? ==> i < p.next
    decreases |toks| - i, 2
  {
    var j := SkipNewlines(toks, i);
    var kind := LiteralKindOf(toks[j].tokenType);
    if kind.Some? then
      var token := ConsumeNext(toks, j);
      if token.result.Failure? then Parsed(Failure(token.result.error), token.next)
      else Parsed(Success(ValueArgument(Literal(token.result.value, kind.value))), token.next)
    else
      var t := TypeIdentifier(toks, j);
      if t.result.Failure? then Parsed(Failure(t.result.error), t.next)
      else Parsed(Success(TypeArgument(t.result.value)), t.next)
  }

  /** The loop `while match(.comma) { append(parseSingleGenericIdentifier()) }` and the closing `>`. */
  function GenericIdentifierList(toks: seq<Token>, i: nat, acc: seq<GenericIdentifier>): (p: Parsed<seq<GenericIdentifier>>)
    requires InRange(toks, i)
    ensures i <= p.next < |toks|
    ensures p.result.Success? ==> i < p.next
    decreases |toks| - i, 0
  {
    var m := Match(toks, i, Comma);
    if !m.ok then
      var close := Consume(toks, m.next, GreaterThan, "Expected '>' after generics");
      if close.result.Failure? then Parsed(Failure(close.result.error), close.next)
      else Parsed(Success(acc), close.next)
    else
      var g := SingleGenericIdentifier(toks, m.next);
      if g.result.Failure? then Parsed(Failure(g.result.error), g.next)
      else GenericIdentifierList(toks, g.next, acc + [g.result.value])
  }

  /** A generic parameter: `'name: Type` declares a value generic, `Name` a type generic. */
  function SingleGenericDeclaration(toks: seq<Token>, i: nat): (p: Parsed<GenericDeclaration>)
    requires InRange(toks, i)
    ensures i <= p.next < |toks|
    ensures p.result.Success? ==> i < p.next
    ensures p.result.Success? && p.result.value.ValueGeneric? ==> Match(toks, i, SingleQuote).ok
    ensures p.result.Success? && p.result.value.TypeGeneric? ==> !Match(toks, i, SingleQuote).ok
  {
    var quote := Match(toks, i, SingleQuote);
    if quote.ok then
      var name := Consume(toks, quote.next, Identifier, "Expected name of generic value");
      if name.result.Failure? then Parsed(Failure(name.result.error), name.next)
      else
        var colon := Consume(toks, name.next, Colon, "Expected ':' after generic value name");
        if colon.result.Failure? then Parsed(Failure(colon.result.error), colon.next)
        else
          var t := TypeIdentifier(toks, colon.next);
          if t.result.Failure? then Parsed(Failure(t.result.error), t.next)
          else Parsed(Success(ValueGeneric(name.result.value, t.result.value)), t.next)
    else
      var name := Consume(toks, quote.next, Identifier, "Expected name of generic type");
      if name.result.Failure? then Parsed(Failure(name.result.error), name.next)
      else Parsed(Success(TypeGeneric(name.result.value)), name.next)
  }

  /** The loop `while match(.comma) { append(parseSingleGenericDeclaration()) }` and the closing `>`. */
  function GenericDeclarationList(toks: seq<Token>, i: nat, acc: seq<GenericDeclaration>): (p: Parsed<seq<GenericDeclaration>>)
    requires InRange(toks, i)
    ensures i <= p.next < |toks|
    ensures p.result.Success? ==> i < p.next
    decreases |toks| - i
  {
    var m := Match(toks, i, Comma);
    if !m.ok then
      var close := Consume(toks, m.next, GreaterThan, "Expected '>' symbol after generics list");
      if close.result.Failure? then Parsed(Failure(close.result.error), close.next)
      else Parsed(Success(acc), close.next)
    else
      var g := SingleGenericDeclaration(toks, m.next);
      if g.result.Failure? then Parsed(Failure(g.result.error), g.next)
      else GenericDeclarationList(toks, g.next, acc + [g.result.value])
  }

  /** A declared type name with optional generic parameters. */
  function TypeDeclaration(toks: seq<Token>, i: nat): (p: Parsed<Syntax.TypeDeclaration>)
    requires InRange(toks, i)
    ensures i <= p.next < |toks|
    ensures p.result.Success? ==> i < p.next && p.result.value.nameIdentifier.tokenType == Identifier
  {
    var name := Consume(toks, i, Identifier, "Expected name identifier of type");
    if name.result.Failure? then Parsed(Failure(name.result.error), name.next)
    else
      var lt := Match(toks, name.next, LessThan);
      if !lt.ok then Parsed(Success(Syntax.TypeDeclaration(name.result.value, [])), lt.next)
      else
        var g := SingleGenericDeclaration(toks, lt.next);
        if g.result.Failure? then Parsed(Failure(g.result.error), g.next)
        else
          var list := GenericDeclarationList(toks, g.next, [g.result.value]);
          if list.result.Failure? then Parsed(Failure(list.result.error), list.next)
          else Parsed(Success(Syntax.TypeDeclaration(name.result.value, list.result.value)), list.next)
  }

  // ---------------------------------------------------------------------------
  // Declarations

  /** `var`/`const`, a name, then the rest of the declaration. */
  function VariableDeclaration(rules: Rules, toks: seq<Token>, i: nat): (p: Parsed<Syntax.VariableDeclaration>)
    requires InRange(toks, i) && rules.Valid()
    ensures i <= p.next < |toks|
    ensures IsMutabilityKeyword(toks[SkipNewlines(toks, i)].tokenType) ==> i < p.next
    ensures p.result.Success? ==>
      && i < p.next
      && StatementEnded(toks, p.next)
      && p.result.value.nameIdentifier.tokenType == Identifier
  {
    hide VariableMutability, Consume, VariableTail;
    var mutability := VariableMutability(toks, i);
    if mutability.result.Failure? then Parsed(Failure(mutability.result.error), mutability.next)
    else
      var name := Consume(toks, mutability.next, Identifier, "Expected variable name identifier");
      if name.result.Failure? then Parsed(Failure(name.result.error), name.next)
      else
        var tail := VariableTail(rules, toks, name.next);
        if tail.result.Failure? then Parsed(Failure(tail.result.error), tail.next)
        else
          var (typed, value) := tail.result.value;
          Parsed(Success(Syntax.VariableDeclaration(mutability.result.value, name.result.value, typed, value)), tail.next)
  }

  /** What follows a variable's name: an optional `: Type`, an optional `= expression`, then a
      statement end, which is checked but not consumed. */
  function VariableTail(rules: Rules, toks: seq<Token>, i: nat): (p: Parsed<(Option<Syntax.TypeIdentifier>, Option<Expression>)>)
    requires InRange(toks, i) && rules.Valid()
    ensures i <= p.next < |toks|
    ensures p.result.Success? ==> StatementEnded(toks, p.next)
  {
    hide TypeIdentifier, Match, Present, VerifyStatementEnd;
    var colon := Match(toks, i, Colon);
    var typed := if colon.ok then Present(TypeIdentifier(toks, colon.next)) else Parsed(Success(None), colon.next);
    if typed.result.Failure? then Parsed(Failure(typed.result.error), typed.next)
    else
      var equal := Match(toks, typed.next, Equal);
      var value := if equal.ok then Present(rules.expression(toks, equal.next)) else Parsed(Success(None), equal.next);
      if value.result.Failure? then Parsed(Failure(value.result.error), value.next)
      else
        var end := VerifyStatementEnd(toks, value.next);
        if end.Some? then Parsed(Failure(end.value), value.next)
        else Parsed(Success((typed.result.value, value.result.value)), value.next)
  }

  /** The loop `while !isAtEnd && match(.trailingBrace) == false { append(parseVariableDeclaration()) }`. */
  function StructBody(rules: Rules, toks: seq<Token>, i: nat, acc: seq<Syntax.VariableDeclaration>): (p: Parsed<seq<Syntax.VariableDeclaration>>)
    requires InRange(toks, i) && rules.Valid()
    ensures i <= p.next < |toks|
    decreases |toks| - i
  {
    if AtEnd(toks, i) then Parsed(Success(acc), i)
    else
      var close := Match(toks, i, TrailingBrace);
      if close.ok then Parsed(Success(acc), close.next)
      else
        var v := VariableDeclaration(rules, toks, close.next);
        if v.result.Failure? then Parsed(Failure(v.result.error), v.next)
        else StructBody(rules, toks, v.next, acc + [v.result.value])
  }

  /** `struct`, a type declaration, `{`, then variable declarations up to `}` or the end. */
  function StructureDeclaration(rules: Rules, toks: seq<Token>, i: nat): (p: Parsed<StructDeclaration>)
    requires InRange(toks, i) && rules.Valid()
    ensures i <= p.next < |toks|
    ensures toks[SkipNewlines(toks, i)].tokenType == KeywordStruct ==> i < p.next
  {
    hide Consume, TypeDeclaration, StructBody, Rules.Valid;
    var keyword := Consume(toks, i, KeywordStruct, "Expected 'struct' keyword");
    if keyword.result.Failure? then Parsed(Failure(keyword.result.error), keyword.next)
    else
      var structType := TypeDeclaration(toks, keyword.next);
      if structType.result.Failure? then Parsed(Failure(structType.result.error), structType.next)
      else
        var open := Consume(toks, structType.next, LeadingBrace, "Expected '{' after struct type");
        if open.result.Failure? then Parsed(Failure(open.result.error), open.next)
        else
          var body := StructBody(rules, toks, open.next, []);
          if body.result.Failure? then Parsed(Failure(body.result.error), body.next)
          else Parsed(Success(StructDeclaration(structType.result.value, body.result.value)), body.next)
  }

  /** The loop `while match(.comma) { append(parseFunctionParameter()) }` and the closing `)`. */
  function ParameterList(rules: Rules, toks: seq<Token>, i: nat, acc: seq<Parameter>): (p: Parsed<seq<Parameter>>)
    requires InRange(toks, i) && rules.Valid()
    ensures i <= p.next < |toks|
    ensures p.result.Success? ==> i < p.next
    decreases |toks| - i
  {
    var m := Match(toks, i, Comma);
    if !m.ok then
      var close := Consume(toks, m.next, TrailingParen, "Expected ')' after parameter list");
      if close.result.Failure? then Parsed(Failure(close.result.error), close.next)
      else Parsed(Success(acc), close.next)
    else
      var parameter := rules.parameter(toks, m.next);
      if parameter.result.Failure? then Parsed(Failure(parameter.result.error), parameter.next)
      else ParameterList(rules, toks, parameter.next, acc + [parameter.result.value])
  }

  /** The loop `while !isAtEnd && willMatch(.trailingBrace) == false { append(parseStatement()) }`
      and the closing `}`. */
  function StatementsLoop(rules: Rules, toks: seq<Token>, i: nat, acc: seq<Statement>): (p: Parsed<seq<Statement>>)
    requires InRange(toks, i) && rules.Valid()
    ensures i <= p.next < |toks|
    ensures p.result.Success? ==> i < p.next
    decreases |toks| - i
  {
    hide Consume, WillMatchFrom;
    if AtEnd(toks, i) || WillMatchFrom(toks, i, [TrailingBrace]) then
      var close := Consume(toks, i, TrailingBrace, "Expected '}' to close block");
      if close.result.Failure? then Parsed(Failure(close.result.error), close.next)
      else Parsed(Success(acc), close.next)
    else
      var statement := rules.statement(toks, i);
      if statement.result.Failure? then Parsed(Failure(statement.result.error), statement.next)
      else StatementsLoop(rules, toks, statement.next, acc + [statement.result.value])
  }

  /** `{`, statements, `}`. */
  function StatementsBlock(rules: Rules, toks: seq<Token>, i: nat): (p: Parsed<seq<Statement>>)
    requires InRange(toks, i) && rules.Valid()
    ensures i <= p.next < |toks|
    ensures p.result.Success? ==> i < p.next
  {
    hide Consume, StatementsLoop, Rules.Valid;
    var open := Consume(toks, i, LeadingBrace, "Expected '{' token");
    if open.result.Failure? then Parsed(Failure(open.result.error), open.next)
    else StatementsLoop(rules, toks, open.next, [])
  }

  /** The statements loop ends only by consuming a `}`. */
  lemma {:induction false} StatementsLoopClosesBrace(rules: Rules, toks: seq<Token>, i: nat, acc: seq<Statement>)
    requires InRange(toks, i) && rules.Valid()
    ensures var p := StatementsLoop(rules, toks, i, acc);
      p.result.Success? ==> toks[p.next - 1].tokenType == TrailingBrace
    decreases |toks| - i
  {
    if !(AtEnd(toks, i) || WillMatchFrom(toks, i, [TrailingBrace])) {
      var statement := rules.statement(toks, i);
      if statement.result.Success? {
        StatementsLoopClosesBrace(rules, toks, statement.next, acc + [statement.result.value]);
      }
    }
  }

  /** A block that parses ends on the `}` that closes it. */
  lemma StatementsBlockClosesBrace(rules: Rules, toks: seq<Token>, i: nat)
    requires InRange(toks, i) && rules.Valid()
    ensures var p := StatementsBlock(rules, toks, i);
      p.result.Success? ==> toks[p.next - 1].tokenType == TrailingBrace
  {
    var open := Consume(toks, i, LeadingBrace, "Expected '{' token");
    if open.result.Success? {
      StatementsLoopClosesBrace(rules, toks, open.next, []);
    }
  }

  /** The parameters after `(`: none when `)` follows, otherwise a comma-separated list closed by `)`. */
  function FunctionParameters(rules: Rules, toks: seq<Token>, i: nat): (p: Parsed<seq<Parameter>>)
    requires InRange(toks, i) && rules.Valid()
    ensures i <= p.next < |toks|
    ensures p.result.Success? ==> i < p.next
  {
    hide Match, ParameterList;
    var empty := Match(toks, i, TrailingParen);
    if empty.ok then Parsed(Success([]), empty.next)
    else
      var first := rules.parameter(toks, empty.next);
      if first.result.Failure? then Parsed(Failure(first.result.error), first.next)
      else ParameterList(rules, toks, first.next, [first.result.value])
  }

  /** `func`, a name, a parenthesised parameter list, an optional `-> Type`, then a block. */
  function FunctionDeclaration(rules: Rules, toks: seq<Token>, i: nat): (p: Parsed<FuncDeclaration>)
    requires InRange(toks, i) && rules.Valid()
    ensures i <= p.next < |toks|
    ensures toks[SkipNewlines(toks, i)].tokenType == KeywordFunc ==> i < p.next
  {
    hide Consume, Match, Present, TypeIdentifier, FunctionParameters, StatementsBlock;
    var keyword := Consume(toks, i, KeywordFunc, "Expected 'func' keyword");
    if keyword.result.Failure? then Parsed(Failure(keyword.result.error), keyword.next)
    else
      var name := Consume(toks, keyword.next, Identifier, "Expected function name identifier after 'func' keyword");
      if name.result.Failure? then Parsed(Failure(name.result.error), name.next)
      else
        var open := Consume(toks, name.next, LeadingParen, "Expected '(' after function name");
        if open.result.Failure? then Parsed(Failure(open.result.error), open.next)
        else
          var parameters := FunctionParameters(rules, toks, open.next);
          if parameters.result.Failure? then Parsed(Failure(parameters.result.error), parameters.next)
          else
            var arrow := Match(toks, parameters.next, ReturnArrow);
            var returned := if arrow.ok then Present(TypeIdentifier(toks, arrow.next)) else Parsed(Success(None), arrow.next);
            if returned.result.Failure? then Parsed(Failure(returned.result.error), returned.next)
            else
              var body := StatementsBlock(rules, toks, returned.next);
              if body.result.Failure? then Parsed(Failure(body.result.error), body.next)
              else Parsed(Success(FuncDeclaration(name.result.value, parameters.result.value, returned.result.value, body.result.value)), body.next)
  }

  /** The tokens that begin a root declaration. */
  predicate StartsDeclaration(t: TokenType)
  {
    t == KeywordStruct || t == KeywordFunc || t == KeywordVar || t == KeywordConst
  }

  const RootMessage := "Token not allowed in the root of a source file"

  /** A root declaration, dispatched on the first token after newlines. */
  function InSourceDeclaration(rules: Rules, toks: seq<Token>, i: nat): (p: Parsed<Syntax.InSourceDeclaration>)
    requires InRange(toks, i) && rules.Valid()
    ensures SkipNewlines(toks, i) <= p.next < |toks|
    ensures p.result.Success? ==> i < p.next
    ensures StartsDeclaration(toks[SkipNewlines(toks, i)].tokenType) ==> i < p.next
  {
    hide StructureDeclaration, FunctionDeclaration, VariableDeclaration, Rules.Valid;
    var j := SkipNewlines(toks, i);
    var t := toks[j].tokenType;
    if t == KeywordStruct then
      var d := StructureDeclaration(rules, toks, j);
      if d.result.Failure? then Parsed(Failure(d.result.error), d.next) else Parsed(Success(StructureDecl(d.result.value)), d.next)
    else if t == KeywordFunc then
      var d := FunctionDeclaration(rules, toks, j);
      if d.result.Failure? then Parsed(Failure(d.result.error), d.next) else Parsed(Success(FunctionDecl(d.result.value)), d.next)
    else if t == KeywordVar || t == KeywordConst then
      var d := VariableDeclaration(rules, toks, j);
      if d.result.Failure? then Parsed(Failure(d.result.error), d.next) else Parsed(Success(VariableDecl(d.result.value)), d.next)
    else
      Parsed(Failure(UnexpectedToken(t, toks[j].lexeme, RootMessage)), j)
  }

  // ---------------------------------------------------------------------------
  // The root loop and its error recovery

  /** The root loop's variables: the token index, the declarations so far and the errors so far. */
  datatype LoopState = LoopState(index: nat, declarations: seq<Syntax.InSourceDeclaration>, errors: seq<Located<ParseError>>)

  /** An error located at the current token, as `emitError` records it. */
  function LocatedAt(toks: seq<Token>, i: nat, e: ParseError): Located<ParseError>
    requires i < |toks|
  {
    Located(e, toks[i].line, toks[i].column)
  }

  /** One pass of the root loop: a declaration is appended, or its error is recorded at the current
      token and recovery skips to the next recovery point. */
  function RootPass(rules: Rules, toks: seq<Token>, s: LoopState): (t: LoopState)
    requires InRange(toks, s.index) && rules.Valid()
    ensures s.index <= SkipNewlines(toks, s.index) <= t.index < |toks|
    ensures s.declarations <= t.declarations && s.errors <= t.errors
    ensures |t.declarations| + |t.errors| == |s.declarations| + |s.errors| + 1
  {
    hide InSourceDeclaration, Synchronize, Rules.Valid;
    var d := InSourceDeclaration(rules, toks, s.index);
    if d.result.Success? then LoopState(d.next, s.declarations + [d.result.value], s.errors)
    else LoopState(Synchronize(toks, d.next), s.declarations, s.errors + [LocatedAt(toks, d.next, d.result.error)])
  }

  /**
   * The loop `while !isAtEnd { do { append(parseInSourceDeclaration()) } catch { emitError; synchronize() } }`,
   * run for at most `fuel` passes: its final state, or None when the fuel runs out before endOfFile.
   */
  function SourceFileLoop(rules: Rules, toks: seq<Token>, s: LoopState, fuel: nat): (r: Option<LoopState>)
    requires InRange(toks, s.index) && rules.Valid()
    ensures r.Some? ==> s.index <= r.value.index < |toks| && AtEnd(toks, r.value.index)
    ensures r.Some? ==> s.declarations <= r.value.declarations && s.errors <= r.value.errors
    decreases fuel
  {
    if AtEnd(toks, s.index) then Some(s)
    else if fuel == 0 then None
    else SourceFileLoop(rules, toks, RootPass(rules, toks, s), fuel - 1)
  }

  /** No impl keyword anywhere in the token list. */
  predicate NoImpl(toks: seq<Token>)
  {
    forall k | 0 <= k < |toks| :: toks[k].tokenType != KeywordImpl
  }

  /** Unless the first token after the newlines is `impl`, one pass of the root loop moves forward. */
  lemma RootPassProgress(rules: Rules, toks: seq<Token>, s: LoopState)
    requires InRange(toks, s.index) && rules.Valid() && !AtEnd(toks, s.index)
    requires toks[SkipNewlines(toks, s.index)].tokenType != KeywordImpl
    ensures s.index < RootPass(rules, toks, s).index
  {
    var i := s.index;
    var j := SkipNewlines(toks, i);
    var d := InSourceDeclaration(rules, toks, i);
    if d.result.Failure? && !StartsDeclaration(toks[j].tokenType) {
      assert d.next == j;
      if j == i {
        assert !IsRecoveryPoint(toks[j].tokenType);
      }
    }
  }

  /** Without impl tokens, the root loop reaches endOfFile within |toks| - index passes. */
  lemma {:induction false} SourceFileLoopTerminates(rules: Rules, toks: seq<Token>, s: LoopState, fuel: nat)
    requires InRange(toks, s.index) && rules.Valid() && NoImpl(toks)
    requires fuel >= |toks| - s.index
    ensures SourceFileLoop(rules, toks, s, fuel).Some?
    decreases |toks| - s.index
  {
    hide InSourceDeclaration;
    if !AtEnd(toks, s.index) {
      var t := RootPass(rules, toks, s);
      RootPassProgress(rules, toks, s);
      SourceFileLoopTerminates(rules, toks, t, fuel - 1);
      assert SourceFileLoop(rules, toks, s, fuel) == SourceFileLoop(rules, toks, t, fuel - 1);
    }
  }

  /** More fuel than a terminating run needs changes nothing. */
  lemma {:induction false} SourceFileLoopFuel(rules: Rules, toks: seq<Token>, s: LoopState, fuel: nat, more: nat)
    requires InRange(toks, s.index) && rules.Valid()
    requires SourceFileLoop(rules, toks, s, fuel).Some? && more >= fuel
    ensures SourceFileLoop(rules, toks, s, more) == SourceFileLoop(rules, toks, s, fuel)
    decreases fuel
  {
    hide InSourceDeclaration;
    if !AtEnd(toks, s.index) {
      SourceFileLoopFuel(rules, toks, RootPass(rules, toks, s), fuel - 1, more - 1);
    }
  }

  /** Where a pass resumes depends on the index alone, not on what was collected. */
  lemma RootPassIndex(rules: Rules, toks: seq<Token>, s: LoopState, t: LoopState)
    requires InRange(toks, s.index) && rules.Valid() && s.index == t.index
    ensures RootPass(rules, toks, s).index == RootPass(rules, toks, t).index
  {
  }

  /** When a pass resumes where it began, the root loop never reaches endOfFile, whatever the fuel. */
  lemma {:induction false} StuckSourceFileLoop(rules: Rules, toks: seq<Token>, s: LoopState, fuel: nat)
    requires InRange(toks, s.index) && rules.Valid() && !AtEnd(toks, s.index)
    requires RootPass(rules, toks, s).index == s.index
    ensures SourceFileLoop(rules, toks, s, fuel) == None
    decreases fuel
  {
    if fuel > 0 {
      var t := RootPass(rules, toks, s);
      RootPassIndex(rules, toks, s, t);
      StuckSourceFileLoop(rules, toks, t, fuel - 1);
    }
  }

  /** An `impl` keyword reached at the root is reported and then re-read forever: the root loop never ends. */
  lemma ImplAtRootLoopsForever(rules: Rules, toks: seq<Token>, s: LoopState, fuel: nat)
    requires InRange(toks, s.index) && rules.Valid() && !AtEnd(toks, s.index)
    requires toks[SkipNewlines(toks, s.index)].tokenType == KeywordImpl
    ensures SourceFileLoop(rules, toks, s, fuel) == None
  {
    var j := SkipNewlines(toks, s.index);
    var t := RootPass(rules, toks, s);
    assert InSourceDeclaration(rules, toks, s.index).next == j;
    assert t.index == j;
    assert SkipNewlines(toks, j) == j;
    assert RootPass(rules, toks, t).index == j;
    if fuel > 0 {
      StuckSourceFileLoop(rules, toks, t, fuel - 1);
    }
  }

  /** One pass as evidently intended: when recovery would resume at the very token the pass read
      after the newlines, and that token is not endOfFile, the token is stepped over. */
  function RootPassIntended(rules: Rules, toks: seq<Token>, s: LoopState): (t: LoopState)
    requires InRange(toks, s.index) && rules.Valid() && !AtEnd(toks, s.index)
    ensures s.index < t.index < |toks|
  {
    hide RootPass, SkipNewlines, InSourceDeclaration, Synchronize, Rules.Valid;
    var j := SkipNewlines(toks, s.index);
    var t := RootPass(rules, toks, s);
    assert s.index <= j <= t.index;
    if t.index == j && !AtEnd(toks, j) then
      assert j + 1 < |toks| by { assert toks[|toks| - 1].tokenType == EndOfFile; }
      LoopState(j + 1, t.declarations, t.errors)
    else
      assert t.index == s.index ==> j == s.index;
      t
  }

  /** A corrected pass in terms of the declaration read after the newlines: kept when it parses;
      otherwise its error is recorded and recovery runs, stepping one token on when it would stay put. */
  lemma RootPassIntendedSteps(rules: Rules, toks: seq<Token>, s: LoopState)
    requires InRange(toks, s.index) && rules.Valid() && !AtEnd(toks, s.index)
    ensures var j := SkipNewlines(toks, s.index);
      var d := InSourceDeclaration(rules, toks, j);
      var t := RootPassIntended(rules, toks, s);
      if d.result.Success? then t == LoopState(d.next, s.declarations + [d.result.value], s.errors)
      else
        var k := Synchronize(toks, d.next);
        t == LoopState(if k == j && !AtEnd(toks, k) then k + 1 else k, s.declarations,
                       s.errors + [LocatedAt(toks, d.next, d.result.error)])
  {
    hide Synchronize, Rules.Valid;
    InSourceDeclarationAfterNewlines(rules, toks, s.index);
  }

  /** With the correction, an `impl` read at the root is reported once, at its own position, and
      the next pass starts just after it. */
  lemma ImplAtRootReportedOnce(rules: Rules, toks: seq<Token>, s: LoopState)
    requires InRange(toks, s.index) && rules.Valid() && !AtEnd(toks, s.index)
    requires toks[SkipNewlines(toks, s.index)].tokenType == KeywordImpl
    ensures var j := SkipNewlines(toks, s.index);
      var t := toks[j];
      RootPassIntended(rules, toks, s)
        == LoopState(j + 1, s.declarations,
                     s.errors + [Located(UnexpectedToken(KeywordImpl, t.lexeme, RootMessage), t.line, t.column)])
  {
    var j := SkipNewlines(toks, s.index);
    assert Synchronize(toks, j) == j;
    RootTokenNotAllowed(rules, toks, s);
  }

  /** A line break, then `impl`, then the end of the file. */
  function ImplAfterLineBreak(): seq<Token>
  {
    [ Token(Newline, 1, 1, "\n", false), Token(KeywordImpl, 2, 1, "impl", false), Token(EndOfFile, 2, 5, "", false) ]
  }

  /** With the correction, `impl` after a line break at the root gives exactly one error, at 2:1. */
  lemma ImplAfterLineBreakReportedOnce(rules: Rules)
    requires rules.Valid()
    ensures SourceFileLoopIntended(rules, ImplAfterLineBreak(), LoopState(0, [], []))
         == LoopState(2, [], [Located(UnexpectedToken(KeywordImpl, "impl", RootMessage), 2, 1)])
  {
    hide RootPassIntended, SkipNewlines, Rules.Valid;
    var toks := ImplAfterLineBreak();
    assert toks[0].tokenType == Newline && toks[1].tokenType == KeywordImpl;
    SkipNewlinesSteps(toks, 0);
    SkipNewlinesStays(toks, 1);
    ImplAtRootReportedOnce(rules, toks, LoopState(0, [], []));
    assert SourceFileLoopIntended(rules, toks, LoopState(0, [], []))
        == SourceFileLoopIntended(rules, toks, LoopState(2, [], [Located(UnexpectedToken(KeywordImpl, "impl", RootMessage), 2, 1)]));
  }

  /** The root loop as evidently intended: it always reaches endOfFile. */
  function SourceFileLoopIntended(rules: Rules, toks: seq<Token>, s: LoopState): (r: LoopState)
    requires InRange(toks, s.index) && rules.Valid()
    ensures s.index <= r.index < |toks| && AtEnd(toks, r.index)
    ensures s.declarations <= r.declarations && s.errors <= r.errors
    decreases |toks| - s.index
  {
    if AtEnd(toks, s.index) then s
    else SourceFileLoopIntended(rules, toks, RootPassIntended(rules, toks, s))
  }

  /** Wherever the loop as written terminates, the intended loop gives the same result. */
  lemma {:induction false} SourceFileLoopIntendedAgrees(rules: Rules, toks: seq<Token>, s: LoopState, fuel: nat)
    requires InRange(toks, s.index) && rules.Valid()
    requires SourceFileLoop(rules, toks, s, fuel).Some?
    ensures SourceFileLoop(rules, toks, s, fuel).value == SourceFileLoopIntended(rules, toks, s)
    decreases fuel
  {
    hide InSourceDeclaration;
    if !AtEnd(toks, s.index) {
      var j := SkipNewlines(toks, s.index);
      var t := RootPass(rules, toks, s);
      if t.index == j && !AtEnd(toks, j) {
        InSourceDeclarationAfterNewlines(rules, toks, s.index);
        RootPassIndex(rules, toks, t, LoopState(j, s.declarations, s.errors));
        StuckSourceFileLoop(rules, toks, t, fuel - 1);
      } else {
        SourceFileLoopIntendedAgrees(rules, toks, t, fuel - 1);
      }
    }
  }

  /** A root declaration read after the newlines is the one read before them. */
  lemma InSourceDeclarationAfterNewlines(rules: Rules, toks: seq<Token>, i: nat)
    requires InRange(toks, i) && rules.Valid()
    ensures InSourceDeclaration(rules, toks, SkipNewlines(toks, i)) == InSourceDeclaration(rules, toks, i)
  {
    SkipNewlinesIdempotent(toks, i);
  }

  /** A root token other than a declaration keyword is reported as unexpectedToken at that token, and
      recovery resumes at the next recovery point. */
  lemma RootTokenNotAllowed(rules: Rules, toks: seq<Token>, s: LoopState)
    requires InRange(toks, s.index) && rules.Valid() && !AtEnd(toks, s.index)
    requires !StartsDeclaration(toks[SkipNewlines(toks, s.index)].tokenType)
    ensures var j := SkipNewlines(toks, s.index);
      var t := toks[j];
      RootPass(rules, toks, s)
        == LoopState(Synchronize(toks, j), s.declarations,
                     s.errors + [Located(UnexpectedToken(t.tokenType, t.lexeme, RootMessage), t.line, t.column)])
  {
  }

  /** Newlines that end the file are read at the root as an attempt at a declaration: endOfFile is
      reported as not allowed there, and the loop ends. */
  lemma TrailingNewlineAtRoot(rules: Rules, toks: seq<Token>, s: LoopState, fuel: nat)
    requires InRange(toks, s.index) && rules.Valid()
    requires toks[s.index].tokenType == Newline && AtEnd(toks, SkipNewlines(toks, s.index))
    ensures var j := SkipNewlines(toks, s.index);
      var e := toks[j];
      SourceFileLoop(rules, toks, s, fuel + 1)
        == Some(LoopState(j, s.declarations, s.errors + [Located(UnexpectedToken(EndOfFile, e.lexeme, RootMessage), e.line, e.column)]))
  {
    var j := SkipNewlines(toks, s.index);
    assert Synchronize(toks, j) == j;
    RootTokenNotAllowed(rules, toks, s);
  }

  /** `parse`: the root loop from index 0 with the lexer's errors; a source file when no error was
      recorded, otherwise every error. None when the fuel runs out. */
  function ParseTokens(rules: Rules, toks: seq<Token>, lexerErrors: seq<Located<ParseError>>, fuel: nat)
    : (r: Option<Result<SourceFile, seq<Located<ParseError>>>>)
    requires WellFormed(toks) && rules.Valid()
    ensures r.Some? <==> SourceFileLoop(rules, toks, LoopState(0, [], lexerErrors), fuel).Some?
    ensures r.Some? ==> var e := SourceFileLoop(rules, toks, LoopState(0, [], lexerErrors), fuel).value;
      && (r.value.Success? <==> e.errors == [])
      && (r.value.Success? ==> r.value.value.declarations == e.declarations)
      && (r.value.Failure? ==> r.value.error == e.errors)
    ensures r.Some? && r.value.Success? ==> lexerErrors == [] && r.value.value.endOfFile.tokenType == EndOfFile
    ensures r.Some? && r.value.Failure? ==> lexerErrors <= r.value.error && r.value.error != []
  {
    match SourceFileLoop(rules, toks, LoopState(0, [], lexerErrors), fuel)
    case None => None
    case Some(e) =>
      if e.errors == [] then Some(Success(SourceFile(e.declarations, toks[e.index])))
      else Some(Failure(e.errors))
  }

  /** `parse` with the intended root loop: it always finishes. */
  function ParseTokensIntended(rules: Rules, toks: seq<Token>, lexerErrors: seq<Located<ParseError>>)
    : (r: Result<SourceFile, seq<Located<ParseError>>>)
    requires WellFormed(toks) && rules.Valid()
    ensures var e := SourceFileLoopIntended(rules, toks, LoopState(0, [], lexerErrors));
      && (r.Success? <==> e.errors == [])
      && (r.Success? ==> r.value.declarations == e.declarations)
      && (r.Failure? ==> r.error == e.errors)
    ensures r.Success? ==> lexerErrors == [] && r.value.endOfFile.tokenType == EndOfFile
    ensures r.Failure? ==> lexerErrors <= r.error && r.error != []
  {
    var e := SourceFileLoopIntended(rules, toks, LoopState(0, [], lexerErrors));
    if e.errors == [] then Success(SourceFile(e.declarations, toks[e.index])) else Failure(e.errors)
  }

  /** Whenever `parse` as written finishes, the intended one returns the same. */
  lemma ParseTokensIntendedAgrees(rules: Rules, toks: seq<Token>, lexerErrors: seq<Located<ParseError>>, fuel: nat)
    requires WellFormed(toks) && rules.Valid()
    requires ParseTokens(rules, toks, lexerErrors, fuel).Some?
    ensures ParseTokens(rules, toks, lexerErrors, fuel).value == ParseTokensIntended(rules, toks, lexerErrors)
  {
    SourceFileLoopIntendedAgrees(rules, toks, LoopState(0, [], lexerErrors), fuel);
  }

  /** Without impl tokens, parsing needs no more passes than there are tokens. */
  lemma ParseTerminates(rules: Rules, toks: seq<Token>, lexerErrors: seq<Located<ParseError>>, fuel: nat)
    requires WellFormed(toks) && rules.Valid() && NoImpl(toks) && fuel >= |toks|
    ensures ParseTokens(rules, toks, lexerErrors, fuel).Some?
  {
    SourceFileLoopTerminates(rules, toks, LoopState(0, [], lexerErrors), fuel);
  }

  /** A token list holding only endOfFile parses to an empty source file. */
  lemma EmptyTokenListParses(rules: Rules, eof: Token, fuel: nat)
    requires eof.tokenType == EndOfFile && rules.Valid()
    ensures ParseTokens(rules, [eof], [], fuel) == Some(Success(SourceFile([], eof)))
  {
  }

  // ---------------------------------------------------------------------------
  // Lost statement terminators

  /** `verifyStatementEnd` as written: only the current token is looked at, so a line break that
      `match` has already stepped over no longer ends the statement. */
  function VerifyStatementEndAsWritten(toks: seq<Token>, i: nat): (r: Option<ParseError>)
    requires InRange(toks, i)
    ensures r.None? <==> EndsStatement(toks[i].tokenType)
    ensures r.Some? ==> r.value == UnexpectedToken(toks[i].tokenType, toks[i].lexeme, UnterminatedStatementMessage)
  {
    if EndsStatement(toks[i].tokenType) then None
    else Some(UnexpectedToken(toks[i].tokenType, toks[i].lexeme, UnterminatedStatementMessage))
  }

  /** The tail of a variable declaration as written, with VerifyStatementEndAsWritten. */
  function VariableTailAsWritten(rules: Rules, toks: seq<Token>, i: nat): (p: Parsed<(Option<Syntax.TypeIdentifier>, Option<Expression>)>)
    requires InRange(toks, i) && rules.Valid()
    ensures i <= p.next < |toks|
    ensures p.result.Success? ==> EndsStatement(toks[p.next].tokenType)
  {
    hide TypeIdentifier, Match, Present, VerifyStatementEndAsWritten;
    var colon := Match(toks, i, Colon);
    var typed := if colon.ok then Present(TypeIdentifier(toks, colon.next)) else Parsed(Success(None), colon.next);
    if typed.result.Failure? then Parsed(Failure(typed.result.error), typed.next)
    else
      var equal := Match(toks, typed.next, Equal);
      var value := if equal.ok then Present(rules.expression(toks, equal.next)) else Parsed(Success(None), equal.next);
      if value.result.Failure? then Parsed(Failure(value.result.error), value.next)
      else
        var end := VerifyStatementEndAsWritten(toks, value.next);
        if end.Some? then Parsed(Failure(end.value), value.next)
        else Parsed(Success((typed.result.value, value.result.value)), value.next)
  }

  /** As written, a line break right after a variable's name is skipped while looking for the
      optional `:` and `=`: when neither follows, the declaration is reported unterminated at the
      first token of the next line. */
  lemma LostStatementTerminator(rules: Rules, toks: seq<Token>, i: nat)
    requires InRange(toks, i) && rules.Valid() && toks[i].tokenType == Newline
    requires var t := toks[SkipNewlines(toks, i)].tokenType; t != Colon && t != Equal && !EndsStatement(t)
    ensures var j := SkipNewlines(toks, i);
      VariableTailAsWritten(rules, toks, i)
        == Parsed(Failure(UnexpectedToken(toks[j].tokenType, toks[j].lexeme, UnterminatedStatementMessage)), j)
  {
    var j := SkipNewlines(toks, i);
    assert SkipNewlines(toks, j) == j;
  }

  /** `skipNewlines` stays on a token that is not a line break. */
  lemma SkipNewlinesStays(toks: seq<Token>, i: nat)
    requires InRange(toks, i) && toks[i].tokenType != Newline
    ensures SkipNewlines(toks, i) == i
  {
  }

  /** `skipNewlines` steps over a line break. */
  lemma SkipNewlinesSteps(toks: seq<Token>, i: nat)
    requires InRange(toks, i) && toks[i].tokenType == Newline
    ensures SkipNewlines(toks, i) == SkipNewlines(toks, i + 1)
  {
  }

  /** `var` at the current token: a variable, and the index moves past it. */
  lemma VariableKeywordAt(toks: seq<Token>, i: nat)
    requires InRange(toks, i) && toks[i].tokenType == KeywordVar
    ensures VariableMutability(toks, i) == Parsed(Success(Variable), i + 1)
  {
    SkipNewlinesStays(toks, i);
  }

  /** `consume` of the type the current token has returns that token. */
  lemma ConsumeAt(toks: seq<Token>, i: nat, t: TokenType, message: string)
    requires InRange(toks, i) && toks[i].tokenType == t && t != Newline && t != EndOfFile
    ensures Consume(toks, i, t, message) == Parsed(Success(toks[i]), i + 1)
  {
    SkipNewlinesStays(toks, i);
  }

  /** A type name followed by a line break and then a token other than `<`: `match` looks for `<`
      past the line break, so the type identifier, without generics, ends after the line break. */
  lemma TypeIdentifierBeforeLineBreak(toks: seq<Token>, i: nat)
    requires InRange(toks, i + 1) && toks[i].tokenType == Identifier && toks[i + 1].tokenType == Newline
    requires toks[SkipNewlines(toks, i + 1)].tokenType != LessThan
    ensures TypeIdentifier(toks, i) == Parsed(Success(Syntax.TypeIdentifier(toks[i], [])), SkipNewlines(toks, i + 1))
  {
    ConsumeAt(toks, i, Identifier, "Expected name identifier of type");
  }

  /** As written, a line break right after a variable's type is skipped while looking for `<` and
      then `=`: when neither follows, the declaration is reported unterminated at the first token
      of the next line. */
  lemma TypedTerminatorLost(rules: Rules, toks: seq<Token>, i: nat)
    requires InRange(toks, i + 2) && rules.Valid()
    requires toks[i].tokenType == Colon && toks[i + 1].tokenType == Identifier && toks[i + 2].tokenType == Newline
    requires var t := toks[SkipNewlines(toks, i + 2)].tokenType; t != LessThan && t != Equal && !EndsStatement(t)
    ensures var j := SkipNewlines(toks, i + 2);
      VariableTailAsWritten(rules, toks, i)
        == Parsed(Failure(UnexpectedToken(toks[j].tokenType, toks[j].lexeme, UnterminatedStatementMessage)), j)
  {
    hide TypeIdentifier, Rules.Valid;
    var j := SkipNewlines(toks, i + 2);
    SkipNewlinesStays(toks, i);
    TypeIdentifierBeforeLineBreak(toks, i + 1);
    SkipNewlinesStays(toks, j);
  }

  /** With the corrected check, a line break right after a variable's type that is not followed by
      `<` or `=` ends the declaration, with that type and no value. */
  lemma TypedTerminatorKept(rules: Rules, toks: seq<Token>, i: nat)
    requires InRange(toks, i + 2) && rules.Valid()
    requires toks[i].tokenType == Colon && toks[i + 1].tokenType == Identifier && toks[i + 2].tokenType == Newline
    requires var t := toks[SkipNewlines(toks, i + 2)].tokenType; t != LessThan && t != Equal
    ensures VariableTail(rules, toks, i)
         == Parsed(Success((Some(Syntax.TypeIdentifier(toks[i + 1], [])), None)), SkipNewlines(toks, i + 2))
  {
    hide TypeIdentifier, Rules.Valid;
    var j := SkipNewlines(toks, i + 2);
    SkipNewlinesStays(toks, i);
    TypeIdentifierBeforeLineBreak(toks, i + 1);
    SkipNewlinesStays(toks, j);
    assert toks[j - 1].tokenType == Newline;
  }

  /** `var x` newline `var y`: two declarations each ended by a line break. */
  function TwoDeclarations(): seq<Token>
  {
    [ Token(KeywordVar, 1, 1, "var", false), Token(Identifier, 1, 5, "x", false), Token(Newline, 1, 6, "\n", false),
      Token(KeywordVar, 2, 1, "var", false), Token(Identifier, 2, 5, "y", false), Token(EndOfFile, 2, 6, "", false) ]
  }

  /** For `var x` newline `var y`, the tail of the first declaration as written is reported
      unterminated at the second `var`. */
  lemma TwoDeclarationsAsWritten(rules: Rules)
    requires rules.Valid()
    ensures VariableTailAsWritten(rules, TwoDeclarations(), 2)
         == Parsed(Failure(UnexpectedToken(KeywordVar, "var", UnterminatedStatementMessage)), 3)
  {
    var toks := TwoDeclarations();
    assert toks[2].tokenType == Newline && toks[3].tokenType == KeywordVar;
    SkipNewlinesSteps(toks, 2);
    SkipNewlinesStays(toks, 3);
    hide SkipNewlines, VariableTailAsWritten;
    LostStatementTerminator(rules, toks, 2);
  }

  /** With the corrected check, a line break right after a variable's name that is not followed by
      `:` or `=` ends the declaration, with neither type nor value. */
  lemma IntendedTerminatorKept(rules: Rules, toks: seq<Token>, i: nat)
    requires InRange(toks, i) && rules.Valid() && toks[i].tokenType == Newline
    requires var t := toks[SkipNewlines(toks, i)].tokenType; t != Colon && t != Equal
    ensures VariableTail(rules, toks, i) == Parsed(Success((None, None)), SkipNewlines(toks, i))
  {
    hide TypeIdentifier;
    var j := SkipNewlines(toks, i);
    assert toks[j - 1].tokenType == Newline;
    assert SkipNewlines(toks, j) == j;
  }

  /** For `var x` newline `var y`, the first declaration parses and the next one starts at the second `var`. */
  lemma IntendedTwoDeclarations(rules: Rules)
    requires rules.Valid()
    ensures VariableDeclaration(rules, TwoDeclarations(), 0)
         == Parsed(Success(Syntax.VariableDeclaration(Variable, TwoDeclarations()[1], None, None)), 3)
  {
    var toks := TwoDeclarations();
    assert toks[0].tokenType == KeywordVar && toks[1].tokenType == Identifier;
    assert toks[2].tokenType == Newline && toks[3].tokenType == KeywordVar;
    VariableKeywordAt(toks, 0);
    ConsumeAt(toks, 1, Identifier, "Expected variable name identifier");
    SkipNewlinesSteps(toks, 2);
    SkipNewlinesStays(toks, 3);
    hide VariableMutability, Consume, SkipNewlines, VariableTail;
    IntendedTerminatorKept(rules, toks, 2);
  }
}
