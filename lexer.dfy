/**
 * The lexer: a single pass over a Cursor that appends tokens and errors to
 * two buffers and finishes with an endOfFile token. Every method is proved
 * against the reference functions of module Scanning.
 */
module Lexing {
  import opened Tokens
  import opened Characters
  import opened Cursors
  import opened Scanning

  lemma ConcatAssoc<T>(a: seq<T>, b: seq<T>, c: seq<T>)
    ensures a + (b + c) == (a + b) + c
  {
  }

  class Lexer {
    var scannedTokens: seq<Token>
    var errors: seq<Located<ParseError>>
    var currentLexemeLine: int
    var currentLexemeColumn: int

    /** A fresh lexer has empty buffers and the lexeme position line 0, column 0. */
    constructor ()
      ensures scannedTokens == [] && errors == []
      ensures currentLexemeLine == 0 && currentLexemeColumn == 0
    {
      scannedTokens := [];
      errors := [];
      currentLexemeLine := 0;
      currentLexemeColumn := 0;
    }

    /** Scans the whole text: both buffers are reset, and the results are exactly Scan(fileContents). */
    method ScanAllTokens(fileContents: string) returns (results: LexerResults)
      modifies this
      ensures results == Scan(fileContents)
      ensures scannedTokens == results.tokens && errors == results.errors
    {
      var cursor := new Cursor(fileContents);
      scannedTokens := [];
      errors := [];
      while !cursor.IsAtEnd()
        invariant cursor.Valid() && cursor.text == fileContents
        invariant ScanFrom(fileContents, 0).tokens == scannedTokens + ScanFrom(fileContents, cursor.currentIndex).tokens
        invariant ScanFrom(fileContents, 0).errors == errors + ScanFrom(fileContents, cursor.currentIndex).errors
        decreases |fileContents| - cursor.currentIndex
      {
        ghost var before, tokensBefore, errorsBefore := cursor.currentIndex, scannedTokens, errors;
        ghost var step := ScanStep(fileContents, before);
        ScanFromUnfold(fileContents, before);
        StartNewLexeme(cursor);
        ScanNextToken(cursor);
        assert scannedTokens == tokensBefore + step.tokens && errors == errorsBefore + step.errors;
        assert cursor.currentIndex == step.next;
        ConcatAssoc(tokensBefore, step.tokens, ScanFrom(fileContents, step.next).tokens);
        ConcatAssoc(errorsBefore, step.errors, ScanFrom(fileContents, step.next).errors);
      }
      StartNewLexeme(cursor);
      assert ScanFrom(fileContents, cursor.currentIndex) == LexerResults([], []);
      MakeToken(EndOfFile, "");
      results := LexerResults(scannedTokens, errors);
    }

    /** Records the cursor's position as the start of the next lexeme. */
    method StartNewLexeme(cursor: Cursor)
      modifies this`currentLexemeLine, this`currentLexemeColumn
      ensures currentLexemeLine == cursor.currentLine && currentLexemeColumn == cursor.currentColumn
    {
      currentLexemeLine := cursor.currentLine;
      currentLexemeColumn := cursor.currentColumn;
    }

    /** Appends a token at the start of the current lexeme, without the newline flag. */
    method MakeToken(tokenType: TokenType, lexeme: string)
      modifies this`scannedTokens
      ensures scannedTokens
           == old(scannedTokens) + [Token(tokenType, currentLexemeLine, currentLexemeColumn, lexeme, false)]
    {
      scannedTokens := scannedTokens + [Token(tokenType, currentLexemeLine, currentLexemeColumn, lexeme, false)];
    }

    /** Appends an error located at the start of the current lexeme. */
    method EmitError(error: ParseError)
      modifies this`errors
      ensures errors == old(errors) + [Located(error, currentLexemeLine, currentLexemeColumn)]
    {
      errors := errors + [Located(error, currentLexemeLine, currentLexemeColumn)];
    }

    /** The lexeme starting at the cursor: consumes it and emits what ScanStep says. */
    method ScanNextToken(cursor: Cursor)
      requires cursor.Valid() && !cursor.IsAtEnd()
      requires Position(currentLexemeLine, currentLexemeColumn) == PositionAt(cursor.text, cursor.currentIndex)
      modifies this`scannedTokens, this`errors, cursor
      ensures cursor.Valid()
      ensures cursor.currentIndex == ScanStep(cursor.text, old(cursor.currentIndex)).next
      ensures scannedTokens == old(scannedTokens) + ScanStep(cursor.text, old(cursor.currentIndex)).tokens
      ensures errors == old(errors) + ScanStep(cursor.text, old(cursor.currentIndex)).errors
    {
      var next := cursor.Advance();
      if next == '"' {
        ScanStringLiteral(cursor);
      } else if next == '/' && cursor.Peek(0) == '/' {
        var slash := cursor.MatchChar('/');
        ScanCommentLine(cursor);
      } else if SymbolType(next).Some? {
        MakeToken(SymbolType(next).value, [next]);
      } else if IsNewline(next) {
        MakeToken(Newline, [next]);
      } else if IsNumber(next) {
        ScanNumberLiteral(cursor);
      } else if IsIdentifierHead(next) {
        ScanIdentifierOrKeyword(cursor);
      } else if IsWhitespace(next) {
        // Whitespace other than a line break is skipped.
      } else {
        EmitError(UnrecognizedCharacter(next));
      }
    }

    /** A string literal whose opening quote was just consumed. */
    method ScanStringLiteral(cursor: Cursor)
      requires cursor.Valid() && 0 < cursor.currentIndex && cursor.text[cursor.currentIndex - 1] == '"'
      requires Position(currentLexemeLine, currentLexemeColumn) == PositionAt(cursor.text, cursor.currentIndex - 1)
      modifies this`scannedTokens, this`errors, cursor
      ensures cursor.Valid()
      ensures cursor.currentIndex == StringStep(cursor.text, old(cursor.currentIndex) - 1).next
      ensures scannedTokens == old(scannedTokens) + StringStep(cursor.text, old(cursor.currentIndex) - 1).tokens
      ensures errors == old(errors) + StringStep(cursor.text, old(cursor.currentIndex) - 1).errors
    {
      hide PositionAt;
      ghost var start := cursor.currentIndex - 1;
      ghost var stop := StringStop(cursor.text, start + 1);
      var lexeme := [cursor.Previous()];
      while !cursor.IsAtEnd()
        invariant cursor.Valid()
        invariant start < cursor.currentIndex <= stop
        invariant lexeme == cursor.text[start..cursor.currentIndex]
        invariant scannedTokens == old(scannedTokens) && errors == old(errors)
        decreases |cursor.text| - cursor.currentIndex
      {
        ghost var i0 := cursor.currentIndex;
        var next := cursor.Advance();
        if IsNewline(next) {
          EmitError(UnterminatedString(lexeme));
          return;
        }
        assert cursor.text[start..i0 + 1] == cursor.text[start..i0] + [next];
        lexeme := lexeme + [next];
        if next == '"' {
          MakeToken(StringLiteral, lexeme);
          return;
        }
      }
      EmitError(UnterminatedString(lexeme));
    }

    /** A line comment whose `//` was just consumed: skips through the next line break. */
    method ScanCommentLine(cursor: Cursor)
      requires cursor.Valid()
      modifies cursor
      ensures cursor.Valid()
      ensures cursor.currentIndex
           == (var j := LineStop(cursor.text, old(cursor.currentIndex)); if j < |cursor.text| then j + 1 else j)
    {
      ghost var stop := LineStop(cursor.text, cursor.currentIndex);
      while !cursor.IsAtEnd()
        invariant cursor.Valid()
        invariant old(cursor.currentIndex) <= cursor.currentIndex <= stop
        decreases |cursor.text| - cursor.currentIndex
      {
        var isNewline := cursor.Match(IsNewline);
        if isNewline {
          return;
        }
        var skipped := cursor.Advance();
      }
    }

    /** A number literal whose first digit was just consumed. A dot that cannot belong to the
        literal is consumed into the reported lexeme, and the end of the input ends the literal
        as whitespace does (the corrections of the number-literal findings). */
    method ScanNumberLiteral(cursor: Cursor)
      requires cursor.Valid() && 0 < cursor.currentIndex && IsNumber(cursor.text[cursor.currentIndex - 1])
      requires Position(currentLexemeLine, currentLexemeColumn) == PositionAt(cursor.text, cursor.currentIndex - 1)
      modifies this`scannedTokens, this`errors, cursor
      ensures cursor.Valid()
      ensures cursor.currentIndex == NumberStep(cursor.text, old(cursor.currentIndex) - 1).next
      ensures scannedTokens == old(scannedTokens) + NumberStep(cursor.text, old(cursor.currentIndex) - 1).tokens
      ensures errors == old(errors) + NumberStep(cursor.text, old(cursor.currentIndex) - 1).errors
    {
      hide PositionAt, NextPosition, NumberStep, NumberScan, IsWhitespace;
      ghost var start := cursor.currentIndex - 1;
      var lexeme := [cursor.Previous()];
      var scannedDot := false;
      while !cursor.IsAtEnd()
        invariant cursor.Valid()
        invariant start < cursor.currentIndex
        invariant lexeme == cursor.text[start..cursor.currentIndex]
        invariant NumberScan(cursor.text, cursor.currentIndex, scannedDot) == NumberScan(cursor.text, start + 1, false)
        invariant scannedTokens == old(scannedTokens) && errors == old(errors)
        decreases |cursor.text| - cursor.currentIndex
      {
        NumberStepAt(cursor.text, start, cursor.currentIndex, scannedDot);
        var next := cursor.Peek(0);
        if next == '.' && (scannedDot || !IsNumber(cursor.Peek(1))) {
          // A second dot, or a dot with no digit after it: the two rejections act alike.
          var dot := cursor.Advance();
          lexeme := lexeme + [dot];
          assert lexeme == cursor.text[start..cursor.currentIndex];
          EmitError(InvalidNumberLiteral(lexeme));
          return;
        } else if next == '.' {
          scannedDot := true;
          var dot := cursor.Advance();
          lexeme := lexeme + [dot];
        } else if IsNumber(next) {
          var digit := cursor.Advance();
          lexeme := lexeme + [digit];
        } else if IsWhitespace(next) {
          var tokenType := if scannedDot then FixedLiteral else IntegerLiteral;
          MakeToken(tokenType, lexeme);
          return;
        } else {
          EmitError(InvalidNumberLiteral(lexeme));
          return;
        }
      }
      NumberStepAt(cursor.text, start, cursor.currentIndex, scannedDot);
      MakeToken(if scannedDot then FixedLiteral else IntegerLiteral, lexeme);
    }

    /** Identifier and keyword scanning has an empty body: the identifier head just consumed is dropped. */
    method ScanIdentifierOrKeyword(cursor: Cursor)
    {
    }
  }
}
