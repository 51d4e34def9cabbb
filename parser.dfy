/**
 * The recursive-descent parser as a class over its token buffer, its current
 * token index and its error buffer. Every method that parses a rule is proved
 * to leave the index and return the value (or the error it throws) that the
 * matching function of module Grammar gives for the index it started from.
 */
module Parsing {
  import opened Wrappers
  import opened Tokens
  import opened Syntax
  import opened Grammar
  import Scanning
  import Lexing

  class Parser {
    /** The statement, expression and parameter rules, which the parser does not implement. */
    const rules: Rules
    const lexer: Lexing.Lexer
    var currentTokenIndex: nat
    var tokens: seq<Token>
    var errors: seq<Located<ParseError>>

    /** The token list ends with endOfFile and the index is inside it. */
    ghost predicate Valid()
      reads this
    {
      InRange(tokens, currentTokenIndex)
    }

    /** A new parser has no tokens, no errors and the index at 0. */
    constructor (rules: Rules, lexer: Lexing.Lexer)
      ensures this.rules == rules && this.lexer == lexer
      ensures currentTokenIndex == 0 && tokens == [] && errors == []
    {
      this.rules := rules;
      this.lexer := lexer;
      currentTokenIndex := 0;
      tokens := [];
      errors := [];
    }

    /** Scans the text, then parses its tokens from the first one, keeping the lexer's errors
        ahead of the parser's. */
    method Parse(fileContents: string) returns (r: Result<SourceFile, seq<Located<ParseError>>>)
      requires rules.Valid()
      modifies this, lexer
      ensures var scanned := Scanning.Scan(fileContents);
        && tokens == scanned.tokens
        && r == ParseTokensIntended(rules, scanned.tokens, scanned.errors)
        && scanned.errors <= errors
        && (r.Success? <==> errors == [])
        && (r.Failure? ==> errors == r.error)
    {
      var lexerResults := lexer.ScanAllTokens(fileContents);
      Scanning.ScanEndsWithEndOfFile(fileContents);
      tokens := lexerResults.tokens;
      errors := lexerResults.errors;
      currentTokenIndex := 0;
      r := ParseSourceFile();
    }

    // -------------------------------------------------------------------------
    // Declarations

    /**
     * The root loop. A declaration that parses is kept; one that throws is recorded at the
     * current token and recovery skips to the next recovery point. When recovery stops where
     * the pass began, the token there is stepped over, so that the loop always ends.
     */
    method ParseSourceFile() returns (r: Result<SourceFile, seq<Located<ParseError>>>)
      requires Valid() && rules.Valid()
      modifies this`currentTokenIndex, this`errors
      ensures Valid()
      ensures var e := SourceFileLoopIntended(rules, tokens, LoopState(old(currentTokenIndex), [], old(errors)));
        && currentTokenIndex == e.index && errors == e.errors
        && r == (if e.errors == [] then Success(SourceFile(e.declarations, tokens[e.index])) else Failure(e.errors))
    {
      hide RootPassIntended, Rules.Valid;
      ghost var target := SourceFileLoopIntended(rules, tokens, LoopState(currentTokenIndex, [], errors));
      var declarations: seq<Syntax.InSourceDeclaration> := [];
      while !IsAtEnd()
        invariant Valid()
        invariant SourceFileLoopIntended(rules, tokens, LoopState(currentTokenIndex, declarations, errors)) == target
        decreases |tokens| - currentTokenIndex
      {
        declarations := ParseRootPass(declarations);
      }
      if errors == [] {
        r := Success(SourceFile(declarations, CurrentToken()));
      } else {
        r := Failure(errors);
      }
    }

    /**
     * One pass of the root loop: a declaration that parses is appended to `declarations`; one that
     * throws is recorded at the current token, and recovery skips to the next recovery point, or
     * past the first token after the newlines when recovery would stop on it.
     */
    method ParseRootPass(declarations: seq<Syntax.InSourceDeclaration>) returns (after: seq<Syntax.InSourceDeclaration>)
      requires Valid() && rules.Valid() && !IsAtEnd()
      modifies this`currentTokenIndex, this`errors
      ensures Valid()
      ensures LoopState(currentTokenIndex, after, errors)
           == RootPassIntended(rules, tokens, LoopState(old(currentTokenIndex), declarations, old(errors)))
    {
      hide Grammar.InSourceDeclaration, Grammar.Synchronize, Grammar.SkipNewlines, RootPassIntended, Rules.Valid;
      RootPassIntendedSteps(rules, tokens, LoopState(currentTokenIndex, declarations, errors));
      SkipNewlines();
      var first := currentTokenIndex;
      var declaration := ParseInSourceDeclaration();
      if declaration.Success? {
        return declarations + [declaration.value];
      }
      EmitError(declaration.error);
      Synchronize();
      if currentTokenIndex == first && !IsAtEnd() {
        currentTokenIndex := currentTokenIndex + 1;
      }
      after := declarations;
    }

    /** A root declaration, chosen by the first token after the newlines. */
    method ParseInSourceDeclaration() returns (r: Result<Syntax.InSourceDeclaration, ParseError>)
      requires Valid() && rules.Valid()
      modifies this`currentTokenIndex
      ensures Valid()
      ensures Parsed(r, currentTokenIndex) == Grammar.InSourceDeclaration(rules, tokens, old(currentTokenIndex))
    {
      hide StructureDeclaration, FunctionDeclaration, Grammar.VariableDeclaration, Rules.Valid;
      SkipNewlines();
      var t := CurrentToken();
      if t.tokenType == KeywordStruct {
        var d := ParseStructureDeclaration();
        r := if d.Failure? then Failure(d.error) else Success(StructureDecl(d.value));
      } else if t.tokenType == KeywordFunc {
        var d := ParseFunctionDeclaration();
        r := if d.Failure? then Failure(d.error) else Success(FunctionDecl(d.value));
      } else if t.tokenType == KeywordVar || t.tokenType == KeywordConst {
        var d := ParseVariableDeclaration();
        r := if d.Failure? then Failure(d.error) else Success(VariableDecl(d.value));
      } else {
        r := Failure(UnexpectedToken(t.tokenType, t.lexeme, RootMessage));
      }
    }

    /** `struct`, a type declaration, `{`, then variable declarations up to `}` or the end. */
    method ParseStructureDeclaration() returns (r: Result<StructDeclaration, ParseError>)
      requires Valid() && rules.Valid()
      modifies this`currentTokenIndex
      ensures Valid()
      ensures Parsed(r, currentTokenIndex) == StructureDeclaration(rules, tokens, old(currentTokenIndex))
    {
      var keyword := Consume(KeywordStruct, "Expected 'struct' keyword");
      if keyword.Failure? {
        return Failure(keyword.error);
      }
      var structType := ParseTypeDeclaration();
      if structType.Failure? {
        return Failure(structType.error);
      }
      var open := Consume(LeadingBrace, "Expected '{' after struct type");
      if open.Failure? {
        return Failure(open.error);
      }
      ghost var bodyStart := currentTokenIndex;
      var variables: seq<Syntax.VariableDeclaration> := [];
      while true
        invariant Valid()
        invariant StructBody(rules, tokens, currentTokenIndex, variables) == StructBody(rules, tokens, bodyStart, [])
        decreases |tokens| - currentTokenIndex
      {
        if IsAtEnd() {
          break;
        }
        var close := Match(TrailingBrace);
        if close {
          break;
        }
        var variable := ParseVariableDeclaration();
        if variable.Failure? {
          return Failure(variable.error);
        }
        variables := variables + [variable.value];
      }
      r := Success(StructDeclaration(structType.value, variables));
    }

    /** `var`/`const`, a name, an optional `: Type`, an optional `= expression`, then a statement end. */
    method ParseVariableDeclaration() returns (r: Result<Syntax.VariableDeclaration, ParseError>)
      requires Valid() && rules.Valid()
      modifies this`currentTokenIndex
      ensures Valid()
      ensures Parsed(r, currentTokenIndex) == Grammar.VariableDeclaration(rules, tokens, old(currentTokenIndex))
    {
      hide VariableMutability, Grammar.Consume, Grammar.TypeIdentifier, Grammar.Match, Rules.Valid;
      var mutability := ParseVariableMutability();
      if mutability.Failure? {
        return Failure(mutability.error);
      }
      var name := Consume(Identifier, "Expected variable name identifier");
      if name.Failure? {
        return Failure(name.error);
      }
      ghost var tailStart := currentTokenIndex;
      var typeIdentifier: Option<Syntax.TypeIdentifier> := None;
      var colon := Match(Colon);
      if colon {
        var t := ParseTypeIdentifier();
        if t.Failure? {
          return Failure(t.error);
        }
        typeIdentifier := Some(t.value);
      }
      var initialValue: Option<Expression> := None;
      var equal := Match(Equal);
      if equal {
        var e := ParseExpression();
        if e.Failure? {
          return Failure(e.error);
        }
        initialValue := Some(e.value);
      }
      var end := VerifyStatementEnd();
      if end.Some? {
        return Failure(end.value);
      }
      assert VariableTail(rules, tokens, tailStart) == Parsed(Success((typeIdentifier, initialValue)), currentTokenIndex);
      r := Success(Syntax.VariableDeclaration(mutability.value, name.value, typeIdentifier, initialValue));
    }

    /** `var` gives a variable; otherwise `const` is required and gives a constant. */
    method ParseVariableMutability() returns (r: Result<Mutability, ParseError>)
      requires Valid()
      modifies this`currentTokenIndex
      ensures Valid()
      ensures Parsed(r, currentTokenIndex) == VariableMutability(tokens, old(currentTokenIndex))
    {
      var isVariable := Match(KeywordVar);
      if isVariable {
        return Success(Variable);
      }
      var keyword := Consume(KeywordConst, "Expected 'const' or 'var' keyword in variable declaration");
      if keyword.Failure? {
        return Failure(keyword.error);
      }
      r := Success(Constant);
    }

    /** A declared type name, then optional generic parameters `<A, 'n: Int>`. */
    method ParseTypeDeclaration() returns (r: Result<Syntax.TypeDeclaration, ParseError>)
      requires Valid()
      modifies this`currentTokenIndex
      ensures Valid()
      ensures Parsed(r, currentTokenIndex) == Grammar.TypeDeclaration(tokens, old(currentTokenIndex))
    {
      var name := Consume(Identifier, "Expected name identifier of type");
      if name.Failure? {
        return Failure(name.error);
      }
      var generics: seq<GenericDeclaration> := [];
      var lessThan := Match(LessThan);
      if lessThan {
        var first := ParseSingleGenericDeclaration();
        if first.Failure? {
          return Failure(first.error);
        }
        generics := [first.value];
        ghost var listStart := currentTokenIndex;
        while true
          invariant Valid()
          invariant GenericDeclarationList(tokens, currentTokenIndex, generics) == GenericDeclarationList(tokens, listStart, [first.value])
          decreases |tokens| - currentTokenIndex
        {
          var comma := Match(Comma);
          if !comma {
            break;
          }
          var generic := ParseSingleGenericDeclaration();
          if generic.Failure? {
            return Failure(generic.error);
          }
          generics := generics + [generic.value];
        }
        var close := Consume(GreaterThan, "Expected '>' symbol after generics list");
        if close.Failure? {
          return Failure(close.error);
        }
      }
      r := Success(Syntax.TypeDeclaration(name.value, generics));
    }

    /** A type name, then optional generic arguments `<A, 4>`. */
    method ParseTypeIdentifier() returns (r: Result<Syntax.TypeIdentifier, ParseError>)
      requires Valid()
      modifies this`currentTokenIndex
      ensures Valid()
      ensures Parsed(r, currentTokenIndex) == Grammar.TypeIdentifier(tokens, old(currentTokenIndex))
      decreases |tokens| - currentTokenIndex, 1
    {
      var name := Consume(Identifier, "Expected name identifier of type");
      if name.Failure? {
        return Failure(name.error);
      }
      var generics: seq<GenericIdentifier> := [];
      var lessThan := Match(LessThan);
      if lessThan {
        var first := ParseSingleGenericIdentifier();
        if first.Failure? {
          return Failure(first.error);
        }
        generics := [first.value];
        ghost var listStart := currentTokenIndex;
        while true
          invariant Valid()
          invariant GenericIdentifierList(tokens, currentTokenIndex, generics) == GenericIdentifierList(tokens, listStart, [first.value])
          decreases |tokens| - currentTokenIndex
        {
          var comma := Match(Comma);
          if !comma {
            break;
          }
          var generic := ParseSingleGenericIdentifier();
          if generic.Failure? {
            return Failure(generic.error);
          }
          generics := generics + [generic.value];
        }
        var close := Consume(GreaterThan, "Expected '>' after generics");
        if close.Failure? {
          return Failure(close.error);
        }
      }
      r := Success(Syntax.TypeIdentifier(name.value, generics));
    }

    /** A generic parameter: `'name: Type` is a value generic, `Name` a type generic. */
    method ParseSingleGenericDeclaration() returns (r: Result<GenericDeclaration, ParseError>)
      requires Valid()
      modifies this`currentTokenIndex
      ensures Valid()
      ensures Parsed(r, currentTokenIndex) == SingleGenericDeclaration(tokens, old(currentTokenIndex))
    {
      var quote := Match(SingleQuote);
      if quote {
        var name := Consume(Identifier, "Expected name of generic value");
        if name.Failure? {
          return Failure(name.error);
        }
        var colon := Consume(Colon, "Expected ':' after generic value name");
        if colon.Failure? {
          return Failure(colon.error);
        }
        var valueType := ParseTypeIdentifier();
        if valueType.Failure? {
          return Failure(valueType.error);
        }
        r := Success(ValueGeneric(name.value, valueType.value));
      } else {
        var name := Consume(Identifier, "Expected name of generic type");
        if name.Failure? {
          return Failure(name.error);
        }
        r := Success(TypeGeneric(name.value));
      }
    }

    /** A generic argument: a literal token is a value, anything else is parsed as a type. */
    method ParseSingleGenericIdentifier() returns (r: Result<GenericIdentifier, ParseError>)
      requires Valid()
      modifies this`currentTokenIndex
      ensures Valid()
      ensures Parsed(r, currentTokenIndex) == SingleGenericIdentifier(tokens, old(currentTokenIndex))
      decreases |tokens| - currentTokenIndex, 2
    {
      SkipNewlines();
      var kind := LiteralKindOf(CurrentToken().tokenType);
      if kind.Some? {
        var token := ConsumeNext();
        if token.Failure? {
          return Failure(token.error);
        }
        r := Success(ValueArgument(Literal(token.value, kind.value)));
      } else {
        var typeIdentifier := ParseTypeIdentifier();
        if typeIdentifier.Failure? {
          return Failure(typeIdentifier.error);
        }
        r := Success(TypeArgument(typeIdentifier.value));
      }
    }

    /** `func`, a name, a parenthesised parameter list, an optional `-> Type`, then a block. */
    method ParseFunctionDeclaration() returns (r: Result<FuncDeclaration, ParseError>)
      requires Valid() && rules.Valid()
      modifies this`currentTokenIndex
      ensures Valid()
      ensures Parsed(r, currentTokenIndex) == FunctionDeclaration(rules, tokens, old(currentTokenIndex))
    {
      hide Grammar.Consume, Grammar.Match, Grammar.TypeIdentifier, FunctionParameters, StatementsBlock, Rules.Valid;
      var keyword := Consume(KeywordFunc, "Expected 'func' keyword");
      if keyword.Failure? {
        return Failure(keyword.error);
      }
      var name := Consume(Identifier, "Expected function name identifier after 'func' keyword");
      if name.Failure? {
        return Failure(name.error);
      }
      var open := Consume(LeadingParen, "Expected '(' after function name");
      if open.Failure? {
        return Failure(open.error);
      }
      var parameters := ParseFunctionParameters();
      if parameters.Failure? {
        return Failure(parameters.error);
      }
      var returnType: Option<Syntax.TypeIdentifier> := None;
      var arrow := Match(ReturnArrow);
      if arrow {
        var t := ParseTypeIdentifier();
        if t.Failure? {
          return Failure(t.error);
        }
        returnType := Some(t.value);
      }
      var statements := ParseStatementsBlock();
      if statements.Failure? {
        return Failure(statements.error);
      }
      r := Success(FuncDeclaration(name.value, parameters.value, returnType, statements.value));
    }

    /** The parameters after `(`: none when `)` follows at once, otherwise a comma-separated list closed by `)`. */
    method ParseFunctionParameters() returns (r: Result<seq<Parameter>, ParseError>)
      requires Valid() && rules.Valid()
      modifies this`currentTokenIndex
      ensures Valid()
      ensures Parsed(r, currentTokenIndex) == FunctionParameters(rules, tokens, old(currentTokenIndex))
    {
      var empty := Match(TrailingParen);
      if empty {
        return Success([]);
      }
      var first := ParseFunctionParameter();
      if first.Failure? {
        return Failure(first.error);
      }
      var parameters := [first.value];
      ghost var listStart := currentTokenIndex;
      while true
        invariant Valid()
        invariant ParameterList(rules, tokens, currentTokenIndex, parameters) == ParameterList(rules, tokens, listStart, [first.value])
        decreases |tokens| - currentTokenIndex
      {
        var comma := Match(Comma);
        if !comma {
          break;
        }
        var parameter := ParseFunctionParameter();
        if parameter.Failure? {
          return Failure(parameter.error);
        }
        parameters := parameters + [parameter.value];
      }
      var close := Consume(TrailingParen, "Expected ')' after parameter list");
      if close.Failure? {
        return Failure(close.error);
      }
      r := Success(parameters);
    }

    /** `{`, statements up to a `}` or the end, then the closing `}`. */
    method ParseStatementsBlock() returns (r: Result<seq<Statement>, ParseError>)
      requires Valid() && rules.Valid()
      modifies this`currentTokenIndex
      ensures Valid()
      ensures Parsed(r, currentTokenIndex) == StatementsBlock(rules, tokens, old(currentTokenIndex))
    {
      var open := Consume(LeadingBrace, "Expected '{' token");
      if open.Failure? {
        return Failure(open.error);
      }
      ghost var loopStart := currentTokenIndex;
      var statements: seq<Statement> := [];
      while true
        invariant Valid()
        invariant StatementsLoop(rules, tokens, currentTokenIndex, statements) == StatementsLoop(rules, tokens, loopStart, [])
        decreases |tokens| - currentTokenIndex
      {
        if IsAtEnd() {
          break;
        }
        var closing := WillMatch([TrailingBrace]);
        if closing {
          break;
        }
        var statement := ParseStatement();
        if statement.Failure? {
          return Failure(statement.error);
        }
        statements := statements + [statement.value];
      }
      var close := Consume(TrailingBrace, "Expected '}' to close block");
      if close.Failure? {
        return Failure(close.error);
      }
      r := Success(statements);
    }

    // -------------------------------------------------------------------------
    // The rules supplied from outside

    /** A function parameter, as the supplied rule parses it. */
    method ParseFunctionParameter() returns (r: Result<Parameter, ParseError>)
      requires Valid() && rules.Valid()
      modifies this`currentTokenIndex
      ensures Valid()
      ensures Parsed(r, currentTokenIndex) == rules.parameter(tokens, old(currentTokenIndex))
    {
      var p := rules.parameter(tokens, currentTokenIndex);
      currentTokenIndex := p.next;
      r := p.result;
    }

    /** A statement, as the supplied rule parses it. */
    method ParseStatement() returns (r: Result<Statement, ParseError>)
      requires Valid() && rules.Valid()
      modifies this`currentTokenIndex
      ensures Valid()
      ensures Parsed(r, currentTokenIndex) == rules.statement(tokens, old(currentTokenIndex))
    {
      var p := rules.statement(tokens, currentTokenIndex);
      currentTokenIndex := p.next;
      r := p.result;
    }

    /** An expression, as the supplied rule parses it. */
    method ParseExpression() returns (r: Result<Expression, ParseError>)
      requires Valid() && rules.Valid()
      modifies this`currentTokenIndex
      ensures Valid()
      ensures Parsed(r, currentTokenIndex) == rules.expression(tokens, old(currentTokenIndex))
    {
      var p := rules.expression(tokens, currentTokenIndex);
      currentTokenIndex := p.next;
      r := p.result;
    }

    // -------------------------------------------------------------------------
    // Helpers

    /** The parser is at its end exactly when the current token is endOfFile. */
    predicate IsAtEnd()
      reads this
      requires currentTokenIndex < |tokens|
    {
      tokens[currentTokenIndex].tokenType == EndOfFile
    }

    /** The token at the current index. */
    function CurrentToken(): (t: Token)
      reads this
      requires currentTokenIndex < |tokens|
      ensures t in tokens
    {
      tokens[currentTokenIndex]
    }

    /** The token before the current index. */
    function PreviousToken(): (t: Token)
      reads this
      requires 0 < currentTokenIndex <= |tokens|
      ensures t in tokens
    {
      tokens[currentTokenIndex - 1]
    }

    /** Steps over newline tokens, stopping at endOfFile. */
    method SkipNewlines()
      requires Valid()
      modifies this`currentTokenIndex
      ensures Valid()
      ensures currentTokenIndex == Grammar.SkipNewlines(tokens, old(currentTokenIndex))
    {
      while !IsAtEnd() && tokens[currentTokenIndex].tokenType == Newline
        invariant Valid()
        invariant Grammar.SkipNewlines(tokens, currentTokenIndex) == Grammar.SkipNewlines(tokens, old(currentTokenIndex))
        decreases |tokens| - currentTokenIndex
      {
        currentTokenIndex := currentTokenIndex + 1;
      }
    }

    /** Skips newlines, then steps over the current token when it has type `t` and is not endOfFile. */
    method Match(t: TokenType) returns (ok: bool)
      requires Valid()
      modifies this`currentTokenIndex
      ensures Valid()
      ensures Matched(ok, currentTokenIndex) == Grammar.Match(tokens, old(currentTokenIndex), t)
    {
      SkipNewlines();
      if IsAtEnd() {
        return false;
      }
      if tokens[currentTokenIndex].tokenType == t {
        currentTokenIndex := currentTokenIndex + 1;
        return true;
      }
      return false;
    }

    /** Looks ahead, without moving, for the non-newline tokens `types` before endOfFile. */
    method WillMatch(types: seq<TokenType>) returns (r: bool)
      requires Valid() && |types| > 0
      ensures r == WillMatchFrom(tokens, currentTokenIndex, types)
    {
      var remaining := types;
      var offset := 0;
      while tokens[currentTokenIndex + offset].tokenType != EndOfFile
        invariant currentTokenIndex + offset < |tokens| && |remaining| > 0
        invariant WillMatchFrom(tokens, currentTokenIndex + offset, remaining) == WillMatchFrom(tokens, currentTokenIndex, types)
        decreases |tokens| - offset
      {
        if tokens[currentTokenIndex + offset].tokenType == Newline {
          offset := offset + 1;
          continue;
        }
        if remaining[0] != tokens[currentTokenIndex + offset].tokenType {
          return false;
        }
        remaining := remaining[1..];
        if |remaining| == 0 {
          return true;
        }
        offset := offset + 1;
      }
      return false;
    }

    /** Matches `t` and returns the token stepped over, or throws unexpectedToken with `message`. */
    method Consume(t: TokenType, message: string) returns (r: Result<Token, ParseError>)
      requires Valid()
      modifies this`currentTokenIndex
      ensures Valid()
      ensures Parsed(r, currentTokenIndex) == Grammar.Consume(tokens, old(currentTokenIndex), t, message)
    {
      hide Grammar.Match, Grammar.SkipNewlines;
      var matched := Match(t);
      if !matched {
        var current := CurrentToken();
        return Failure(UnexpectedToken(current.tokenType, current.lexeme, message));
      }
      r := Success(PreviousToken());
    }

    /** Skips newlines and steps over the current token, or throws unexpectedEndOfFile. */
    method ConsumeNext() returns (r: Result<Token, ParseError>)
      requires Valid()
      modifies this`currentTokenIndex
      ensures Valid()
      ensures Parsed(r, currentTokenIndex) == Grammar.ConsumeNext(tokens, old(currentTokenIndex))
    {
      SkipNewlines();
      if IsAtEnd() {
        return Failure(UnexpectedEndOfFile);
      }
      currentTokenIndex := currentTokenIndex + 1;
      r := Success(PreviousToken());
    }

    /** Checks, without consuming anything, that a statement has ended: the current token is a line
        break, `}` or endOfFile, or the token before it is a line break. */
    method VerifyStatementEnd() returns (r: Option<ParseError>)
      requires Valid()
      ensures r == Grammar.VerifyStatementEnd(tokens, currentTokenIndex)
    {
      var current := CurrentToken();
      if current.tokenType == Newline || current.tokenType == TrailingBrace || current.tokenType == EndOfFile {
        return None;
      }
      if currentTokenIndex > 0 && PreviousToken().tokenType == Newline {
        return None;
      }
      r := Some(UnexpectedToken(current.tokenType, current.lexeme, UnterminatedStatementMessage));
    }

    /** Records `error` at the current token's line and column. */
    method EmitError(error: ParseError)
      requires Valid()
      modifies this`errors
      ensures errors == old(errors) + [LocatedAt(tokens, currentTokenIndex, error)]
    {
      var current := CurrentToken();
      errors := errors + [Located(error, current.line, current.column)];
    }

    /** Error recovery: skips to the next struct, impl or func keyword, or to endOfFile. */
    method Synchronize()
      requires Valid()
      modifies this`currentTokenIndex
      ensures Valid()
      ensures currentTokenIndex == Grammar.Synchronize(tokens, old(currentTokenIndex))
    {
      while !IsAtEnd()
        invariant Valid()
        invariant Grammar.Synchronize(tokens, currentTokenIndex) == Grammar.Synchronize(tokens, old(currentTokenIndex))
        decreases |tokens| - currentTokenIndex
      {
        var current := CurrentToken();
        if current.tokenType == KeywordStruct || current.tokenType == KeywordImpl || current.tokenType == KeywordFunc {
          return;
        }
        currentTokenIndex := currentTokenIndex + 1;
      }
    }
  }
}
