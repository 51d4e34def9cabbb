/**
 * A reference specification of the lexer as pure functions over the source
 * text: what one call of the lexer's dispatch consumes and emits from a given
 * index, and what a whole scan returns. The imperative Lexer class is proved
 * to compute exactly Scan.
 */
module Scanning {
  import opened Wrappers
  import opened Tokens
  import opened Characters
  import opened Cursors

  /** What a scan returns: the tokens, ending in endOfFile, and the lexical errors. */
  datatype LexerResults = LexerResults(tokens: seq<Token>, errors: seq<Located<ParseError>>)

  /** The effect of scanning one lexeme: where the next lexeme starts and what was emitted. */
  datatype Step = Step(next: nat, tokens: seq<Token>, errors: seq<Located<ParseError>>)

  /** How a number literal scan stops. */
  datatype NumberOutcome = Accepted(tokenType: TokenType) | Rejected | Exhausted

  /** Where a number literal scan stops, and how. */
  datatype NumberEnd = NumberEnd(stop: nat, outcome: NumberOutcome)

  /** A token positioned at `at`; this lexer never sets the newline flag. */
  function MakeToken(t: TokenType, at: Position, lexeme: string): Token
  {
    Token(t, at.line, at.column, lexeme, false)
  }

  /** An error positioned at `at`. */
  function MakeError(e: ParseError, at: Position): Located<ParseError>
  {
    Located(e, at.line, at.column)
  }

  /** The character at `k`, or NUL past the end (the cursor's peek). */
  function CharAt(text: string, k: nat): char
  {
    if k < |text| then text[k] else '\0'
  }

  /** The token type of each single-character symbol. */
  function SymbolType(c: char): (r: Option<TokenType>)
    ensures r.Some? ==> ScannableType(r.value) && r.value != Newline
    ensures IsIdentifierChar(c) || IsWhitespace(c) || c == '"' ==> r.None?
  {
    match c
    case '.' => Some(Dot)
    case ',' => Some(Comma)
    case '!' => Some(Bang)
    case '*' => Some(Star)
    case '%' => Some(Percent)
    case '+' => Some(Plus)
    case '-' => Some(Minus)
    case '=' => Some(Equal)
    case '&' => Some(Ampersand)
    case '|' => Some(Pipe)
    case ':' => Some(Colon)
    case '\'' => Some(SingleQuote)
    case '(' => Some(LeadingParen)
    case ')' => Some(TrailingParen)
    case '{' => Some(LeadingBrace)
    case '}' => Some(TrailingBrace)
    case '[' => Some(LeadingBracket)
    case ']' => Some(TrailingBracket)
    case '<' => Some(LessThan)
    case '>' => Some(GreaterThan)
    case '/' => Some(Slash)
    case _ => None
  }

  /** The token types this lexer can emit before the final endOfFile. */
  predicate ScannableType(t: TokenType)
  {
    || t in {Dot, Comma, Bang, Star, Slash, Percent, Plus, Minus, Equal, Ampersand, Pipe, Colon}
    || t in {SingleQuote, LeadingParen, TrailingParen, LeadingBrace, TrailingBrace}
    || t in {LeadingBracket, TrailingBracket, LessThan, GreaterThan}
    || t in {StringLiteral, IntegerLiteral, FixedLiteral, Newline}
  }

  /** The first index at or after `k` holding a line break or a quote, or the end of the text:
      where the body of a string literal stops. */
  function StringStop(text: string, k: nat): (j: nat)
    requires k <= |text|
    ensures k <= j <= |text|
    ensures forall m | k <= m < j :: !IsNewline(text[m]) && text[m] != '"'
    ensures j < |text| ==> IsNewline(text[j]) || text[j] == '"'
    decreases |text| - k
  {
    if k == |text| || IsNewline(text[k]) || text[k] == '"' then k else StringStop(text, k + 1)
  }

  /** The first index at or after `k` holding a line break, or the end of the text. */
  function LineStop(text: string, k: nat): (j: nat)
    requires k <= |text|
    ensures k <= j <= |text|
    ensures forall m | k <= m < j :: !IsNewline(text[m])
    ensures j < |text| ==> IsNewline(text[j])
    decreases |text| - k
  {
    if k == |text| || IsNewline(text[k]) then k else LineStop(text, k + 1)
  }

  /** The loop of the number-literal scanner from index `k`; `scannedDot` says whether the lexeme
      so far holds a dot. Digits and dots are consumed; the end of the input or whitespace accepts
      the literal, and a dot that cannot belong to it is consumed and rejects it. */
  function NumberScan(text: string, k: nat, scannedDot: bool): (e: NumberEnd)
    requires k <= |text|
    ensures k <= e.stop <= |text|
    ensures !e.outcome.Exhausted?
    ensures forall m | k <= m < e.stop :: IsNumber(text[m]) || text[m] == '.'
    ensures e.outcome.Accepted? ==> e.outcome.tokenType in {IntegerLiteral, FixedLiteral}
    ensures e.outcome.Accepted? ==> e.stop == |text| || IsWhitespace(text[e.stop])
    ensures e.outcome.Rejected? ==>
      || (k < e.stop && text[e.stop - 1] == '.')
      || (e.stop < |text| && !IsWhitespace(text[e.stop]) && !IsNumber(text[e.stop]) && text[e.stop] != '.')
    decreases |text| - k
  {
    if k == |text| then NumberEnd(k, Accepted(if scannedDot then FixedLiteral else IntegerLiteral))
    else
      var next := text[k];
      if next == '.' && scannedDot then NumberEnd(k + 1, Rejected)
      else if next == '.' && !IsNumber(CharAt(text, k + 1)) then NumberEnd(k + 1, Rejected)
      else if next == '.' then NumberScan(text, k + 1, true)
      else if IsNumber(next) then NumberScan(text, k + 1, scannedDot)
      else if IsWhitespace(next) then NumberEnd(k, Accepted(if scannedDot then FixedLiteral else IntegerLiteral))
      else NumberEnd(k, Rejected)
  }

  /** A string literal whose opening quote is at `i`. */
  function StringStep(text: string, i: nat): (s: Step)
    requires i < |text| && text[i] == '"'
    ensures i < s.next <= |text|
  {
    var at := PositionAt(text, i);
    var j := StringStop(text, i + 1);
    if j == |text| then Step(j, [], [MakeError(UnterminatedString(text[i..j]), at)])
    else if IsNewline(text[j]) then Step(j + 1, [], [MakeError(UnterminatedString(text[i..j]), at)])
    else Step(j + 1, [MakeToken(StringLiteral, at, text[i..j + 1])], [])
  }

  /** A line comment whose `//` starts at `i`: everything through the next line break is consumed. */
  function CommentStep(text: string, i: nat): (s: Step)
    requires i + 1 < |text| && text[i] == '/' && text[i + 1] == '/'
    ensures i < s.next <= |text|
  {
    var j := LineStop(text, i + 2);
    Step(if j < |text| then j + 1 else j, [], [])
  }

  /** A number literal whose first digit is at `i`: reported exactly once, as one token or as one
      error, with all the text it consumed as its lexeme. */
  function NumberStep(text: string, i: nat): (s: Step)
    requires i < |text| && IsNumber(text[i])
    ensures i < s.next <= |text|
    ensures |s.tokens| + |s.errors| == 1
    ensures s.tokens != [] ==> s.tokens[0].lexeme == text[i..s.next]
    ensures s.errors != [] ==> s.errors[0].value == InvalidNumberLiteral(text[i..s.next])
  {
    var at := PositionAt(text, i);
    var e := NumberScan(text, i + 1, false);
    var lexeme := text[i..e.stop];
    match e.outcome
    case Accepted(t) => Step(e.stop, [MakeToken(t, at, lexeme)], [])
    case Rejected => Step(e.stop, [], [MakeError(InvalidNumberLiteral(lexeme), at)])
  }

  /** One pass of the lexer's main loop with the lexeme starting at `i`. */
  function ScanStep(text: string, i: nat): (s: Step)
    requires i < |text|
    ensures i < s.next <= |text|
    ensures forall t | t in s.tokens :: ScannableType(t.tokenType)
  {
    var c := text[i];
    var at := PositionAt(text, i);
    if c == '"' then StringStep(text, i)
    else if c == '/' && CharAt(text, i + 1) == '/' then CommentStep(text, i)
    else if SymbolType(c).Some? then Step(i + 1, [MakeToken(SymbolType(c).value, at, [c])], [])
    else if IsNewline(c) then Step(i + 1, [MakeToken(Newline, at, [c])], [])
    else if IsNumber(c) then NumberStep(text, i)
    else if IsIdentifierHead(c) then Step(i + 1, [], [])
    else if IsWhitespace(c) then Step(i + 1, [], [])
    else Step(i + 1, [], [MakeError(UnrecognizedCharacter(c), at)])
  }

  /** Everything the lexer emits for the lexemes from index `i` to the end. */
  function ScanFrom(text: string, i: nat): (r: LexerResults)
    requires i <= |text|
    ensures forall t | t in r.tokens :: ScannableType(t.tokenType)
    decreases |text| - i
  {
    if i == |text| then LexerResults([], [])
    else
      var s := ScanStep(text, i);
      var rest := ScanFrom(text, s.next);
      LexerResults(s.tokens + rest.tokens, s.errors + rest.errors)
  }

  /** A whole scan: the tokens of every lexeme, then endOfFile at the final position. */
  function Scan(text: string): (r: LexerResults)
    ensures |r.tokens| > 0 && r.tokens[|r.tokens| - 1].tokenType == EndOfFile
    ensures r.tokens[|r.tokens| - 1].line == PositionAt(text, |text|).line
    ensures r.tokens[|r.tokens| - 1].column == PositionAt(text, |text|).column
  {
    var body := ScanFrom(text, 0);
    LexerResults(body.tokens + [MakeToken(EndOfFile, PositionAt(text, |text|), "")], body.errors)
  }

  /** ScanFrom from a lexeme start is that lexeme's step followed by the rest. */
  lemma ScanFromUnfold(text: string, i: nat)
    requires i < |text|
    ensures ScanFrom(text, i).tokens == ScanStep(text, i).tokens + ScanFrom(text, ScanStep(text, i).next).tokens
    ensures ScanFrom(text, i).errors == ScanStep(text, i).errors + ScanFrom(text, ScanStep(text, i).next).errors
  {
  }

  /** A scan ends with its only endOfFile token, which has an empty lexeme and sits at the
      position after the last character; empty input gives exactly that token and no error. */
  lemma ScanEndsWithEndOfFile(text: string)
    ensures var r := Scan(text);
      && |r.tokens| > 0
      && r.tokens[|r.tokens| - 1] == Token(EndOfFile, PositionAt(text, |text|).line, PositionAt(text, |text|).column, "", false)
      && (forall k | 0 <= k < |r.tokens| - 1 :: r.tokens[k].tokenType != EndOfFile)
    ensures text == [] ==> Scan(text) == LexerResults([Token(EndOfFile, 1, 1, "", false)], [])
  {
    var r := Scan(text);
    forall k | 0 <= k < |r.tokens| - 1
      ensures r.tokens[k].tokenType != EndOfFile
    {
      assert r.tokens[k] in ScanFrom(text, 0).tokens;
    }
  }

  /** Text made only of symbol characters, with no `//` in it. */
  predicate AllSymbols(text: string)
  {
    && (forall k | 0 <= k < |text| :: SymbolType(text[k]).Some?)
    && (forall k | 0 <= k < |text| - 1 :: !(text[k] == '/' && text[k + 1] == '/'))
  }

  /** A symbol character that does not open a comment is one token. */
  lemma SymbolStep(text: string, i: nat)
    requires i < |text| && SymbolType(text[i]).Some?
    requires !(text[i] == '/' && CharAt(text, i + 1) == '/')
    ensures ScanStep(text, i) == Step(i + 1, [MakeToken(SymbolType(text[i]).value, PositionAt(text, i), [text[i]])], [])
  {
    assert text[i] != '"';
  }

  lemma ConsIndex<T>(head: T, rest: seq<T>, k: nat)
    requires 0 < k <= |rest|
    ensures ([head] + rest)[k] == rest[k - 1]
  {
  }

  /** The token of each symbol character from `i` on, one per character. */
  function SymbolTokens(text: string, i: nat): (r: seq<Token>)
    requires AllSymbols(text) && i <= |text|
    ensures |r| == |text| - i
    decreases |text| - i
  {
    if i == |text| then []
    else [MakeToken(SymbolType(text[i]).value, PositionAt(text, i), [text[i]])] + SymbolTokens(text, i + 1)
  }

  lemma {:induction false} SymbolTokensAt(text: string, i: nat, k: nat)
    requires AllSymbols(text) && i <= k < |text|
    ensures SymbolTokens(text, i)[k - i] == MakeToken(SymbolType(text[k]).value, PositionAt(text, k), [text[k]])
    decreases k - i
  {
    hide PositionAt, MakeToken, SymbolType;
    if i < k {
      SymbolTokensAt(text, i + 1, k);
      ConsIndex(MakeToken(SymbolType(text[i]).value, PositionAt(text, i), [text[i]]), SymbolTokens(text, i + 1), k - i);
    }
  }

  lemma {:induction false} ScanFromSymbols(text: string, i: nat)
    requires AllSymbols(text) && i <= |text|
    ensures ScanFrom(text, i) == LexerResults(SymbolTokens(text, i), [])
    decreases |text| - i
  {
    hide ScanStep;
    if i < |text| {
      ScanFromSymbols(text, i + 1);
      assert !(text[i] == '/' && CharAt(text, i + 1) == '/') by {
        if i + 1 < |text| {
          assert !(text[i] == '/' && text[i + 1] == '/');
        }
      }
      SymbolStep(text, i);
      ScanFromUnfold(text, i);
      var head := MakeToken(SymbolType(text[i]).value, PositionAt(text, i), [text[i]]);
      assert ScanFrom(text, i).tokens == [head] + SymbolTokens(text, i + 1) == SymbolTokens(text, i);
      assert ScanFrom(text, i).errors == [];
    }
  }

  /** Symbol characters give one token each, in source order, whose lexeme is the character,
      at the character's position, and no error. */
  lemma ScanSymbols(text: string)
    requires AllSymbols(text)
    ensures var r := Scan(text);
      && |r.tokens| == |text| + 1 && r.errors == []
      && (forall k | 0 <= k < |text| ::
            r.tokens[k] == MakeToken(SymbolType(text[k]).value, PositionAt(text, k), [text[k]]))
  {
    ScanFromSymbols(text, 0);
    forall k | 0 <= k < |text|
      ensures Scan(text).tokens[k] == MakeToken(SymbolType(text[k]).value, PositionAt(text, k), [text[k]])
    {
      SymbolTokensAt(text, 0, k);
    }
  }

  /** A `//` comment emits nothing and consumes everything through the first line break after it. */
  lemma CommentSkipped(text: string, i: nat)
    requires i + 1 < |text| && text[i] == '/' && text[i + 1] == '/'
    ensures var s := ScanStep(text, i);
      && s.tokens == [] && s.errors == []
      && i + 2 <= s.next
      && (forall m | i + 2 <= m < s.next - 1 :: !IsNewline(text[m]))
      && (s.next < |text| ==> IsNewline(text[s.next - 1]))
  {
  }

  /** A string literal closed before any line break gives one stringLiteral token spanning both
      quotes, with no line break in its lexeme, and no error. */
  lemma ClosedStringLiteral(text: string, i: nat, j: nat)
    requires i < j < |text| && text[i] == '"' && text[j] == '"'
    requires forall m | i < m < j :: text[m] != '"' && !IsNewline(text[m])
    ensures ScanStep(text, i) == Step(j + 1, [MakeToken(StringLiteral, PositionAt(text, i), text[i..j + 1])], [])
    ensures var lexeme := text[i..j + 1];
      lexeme[0] == '"' && lexeme[|lexeme| - 1] == '"' && forall m | 0 <= m < |lexeme| :: !IsNewline(lexeme[m])
  {
    assert StringStop(text, i + 1) == j;
  }

  /** A line break or the end of input before the closing quote gives exactly one
      unterminatedString error with the partial lexeme and no token; the line break is consumed. */
  lemma UnterminatedStringLiteral(text: string, i: nat, j: nat)
    requires i < j <= |text| && text[i] == '"'
    requires forall m | i < m < j :: text[m] != '"' && !IsNewline(text[m])
    requires j == |text| || IsNewline(text[j])
    ensures ScanStep(text, i)
         == Step(if j < |text| then j + 1 else j, [], [MakeError(UnterminatedString(text[i..j]), PositionAt(text, i))])
  {
    assert StringStop(text, i + 1) == j;
  }

  /** The shape of a number lexeme: digits with at most one dot, and a digit after the dot. */
  predicate NumberShape(lexeme: string)
  {
    && |lexeme| > 0 && IsNumber(lexeme[0])
    && (forall k | 0 <= k < |lexeme| :: IsNumber(lexeme[k]) || lexeme[k] == '.')
    && (forall k | 0 <= k < |lexeme| && lexeme[k] == '.' :: k + 1 < |lexeme| && IsNumber(lexeme[k + 1]))
    && (forall k, m | 0 <= k < m < |lexeme| && lexeme[k] == '.' :: lexeme[m] != '.')
  }

  /** Whether a lexeme holds a dot, which makes a number literal a fixedLiteral. */
  predicate HasDot(lexeme: string)
  {
    '.' in lexeme
  }

  /** A number lexeme never ends with its dot. */
  lemma NumberShapeNotAtDot(text: string, i: nat, j: nat)
    requires i < j <= |text| && text[j - 1] == '.'
    ensures !NumberShape(text[i..j])
  {
    assert text[i..j][j - 1 - i] == '.';
  }

  /** A digit on its own starts a number lexeme. */
  lemma NumberPrefixStart(text: string, i: nat)
    requires i < |text| && IsNumber(text[i])
    ensures NumberPrefix(text, i, i + 1, false)
  {
  }

  /** What the number scanner knows about the lexeme text[i..k] it has accumulated. */
  predicate NumberPrefix(text: string, i: nat, k: nat, scannedDot: bool)
  {
    && i < k <= |text| && IsNumber(text[i])
    && (forall m | i <= m < k :: IsNumber(text[m]) || text[m] == '.')
    && (scannedDot <==> exists m | i <= m < k :: text[m] == '.')
    && (forall m, n | i <= m < n < k && text[m] == '.' :: text[n] != '.')
    && (forall m | i <= m < k && text[m] == '.' :: m + 1 < |text| && IsNumber(text[m + 1]))
  }

  /** Where the scan accepts, the accumulated lexeme has the NumberShape, and it holds a dot
      exactly when a dot was scanned. */
  lemma NumberShapeAtStop(text: string, i: nat, k: nat, scannedDot: bool)
    requires NumberPrefix(text, i, k, scannedDot)
    requires k == |text| || !IsNumber(text[k])
    ensures NumberShape(text[i..k]) && (scannedDot <==> HasDot(text[i..k]))
  {
    var lexeme := text[i..k];
    forall m | 0 <= m < |lexeme| && lexeme[m] == '.'
      ensures m + 1 < |lexeme| && IsNumber(lexeme[m + 1])
    {
      assert text[i + m] == '.';
    }
    if scannedDot {
      var m :| i <= m < k && text[m] == '.';
      assert lexeme[m - i] == '.';
    }
    if '.' in lexeme {
      var m :| 0 <= m < |lexeme| && lexeme[m] == '.';
      assert text[i + m] == '.';
    }
  }

  /** Consuming a digit, or a dot that a digit follows when none was scanned yet, keeps what the
      scanner knows about its lexeme, and the scan goes on from the next index. */
  lemma NumberPrefixExtends(text: string, i: nat, k: nat, scannedDot: bool)
    requires NumberPrefix(text, i, k, scannedDot) && k < |text|
    requires IsNumber(text[k]) || (text[k] == '.' && !scannedDot && IsNumber(CharAt(text, k + 1)))
    ensures NumberPrefix(text, i, k + 1, scannedDot || text[k] == '.')
    ensures NumberScan(text, k, scannedDot) == NumberScan(text, k + 1, scannedDot || text[k] == '.')
  {
    if text[k] == '.' {
      assert IsNumber(CharAt(text, k + 1));
    }
  }

  /** Where the scanner can neither take a digit nor a dot, it accepts at `k` if it accepts at all. */
  lemma NumberScanStops(text: string, k: nat, scannedDot: bool)
    requires k <= |text|
    requires !(k < |text| && (IsNumber(text[k]) || (text[k] == '.' && !scannedDot && IsNumber(CharAt(text, k + 1)))))
    ensures NumberScan(text, k, scannedDot).outcome.Accepted? ==>
      && NumberScan(text, k, scannedDot) == NumberEnd(k, Accepted(if scannedDot then FixedLiteral else IntegerLiteral))
      && (k == |text| || !IsNumber(text[k]))
  {
  }

  lemma {:induction false} NumberScanShape(text: string, i: nat, k: nat, scannedDot: bool)
    requires k <= |text| && NumberPrefix(text, i, k, scannedDot)
    ensures var e := NumberScan(text, k, scannedDot);
      e.outcome.Accepted? ==>
        && NumberShape(text[i..e.stop])
        && (e.outcome.tokenType == FixedLiteral <==> HasDot(text[i..e.stop]))
    decreases |text| - k
  {
    hide NumberPrefix, NumberShape, NumberScan, HasDot;
    if k < |text| && (IsNumber(text[k]) || (text[k] == '.' && !scannedDot && IsNumber(CharAt(text, k + 1)))) {
      NumberPrefixExtends(text, i, k, scannedDot);
      NumberScanShape(text, i, k + 1, scannedDot || text[k] == '.');
    } else {
      NumberScanStops(text, k, scannedDot);
      if NumberScan(text, k, scannedDot).outcome.Accepted? {
        NumberShapeAtStop(text, i, k, scannedDot);
      }
    }
  }

  /** A number literal yields a token exactly when its lexeme has the NumberShape and the end of
      input or whitespace follows; the token is fixedLiteral exactly when the lexeme holds a dot.
      Otherwise it yields invalidNumberLiteral with the lexeme. */
  lemma NumberStepShape(text: string, i: nat)
    requires i < |text| && IsNumber(text[i])
    ensures var s := NumberStep(text, i);
      s.tokens != [] <==> NumberShape(text[i..s.next]) && (s.next == |text| || IsWhitespace(text[s.next]))
    ensures var s := NumberStep(text, i);
      var lexeme := text[i..s.next];
      s.tokens != [] ==>
        s.tokens == [MakeToken(if HasDot(lexeme) then FixedLiteral else IntegerLiteral, PositionAt(text, i), lexeme)]
    ensures var s := NumberStep(text, i);
      s.errors != [] ==> s.errors == [MakeError(InvalidNumberLiteral(text[i..s.next]), PositionAt(text, i))]
  {
    hide PositionAt, MakeToken, MakeError, NumberShape, NumberScan, NumberPrefix, IsWhitespace, HasDot;
    var e := NumberScan(text, i + 1, false);
    var s := NumberStep(text, i);
    var lexeme := text[i..e.stop];
    NumberPrefixStart(text, i);
    NumberScanShape(text, i, i + 1, false);
    if e.outcome.Accepted? {
      assert s == Step(e.stop, [MakeToken(e.outcome.tokenType, PositionAt(text, i), lexeme)], []);
    } else {
      assert s == Step(e.stop, [], [MakeError(InvalidNumberLiteral(lexeme), PositionAt(text, i))]);
      if i + 1 < e.stop && text[e.stop - 1] == '.' {
        NumberShapeNotAtDot(text, i, e.stop);
      }
    }
  }

  /** Once the number scan has reached `k` on its way from `start`, the character at `k` decides
      what the literal reports, or the scan goes on from `k + 1`. */
  lemma NumberStepAt(text: string, start: nat, k: nat, scannedDot: bool)
    requires start < k <= |text| && IsNumber(text[start])
    requires NumberScan(text, k, scannedDot) == NumberScan(text, start + 1, false)
    ensures k == |text| ==>
      NumberStep(text, start)
      == Step(k, [MakeToken(if scannedDot then FixedLiteral else IntegerLiteral, PositionAt(text, start), text[start..k])], [])
    ensures k < |text| && text[k] == '.' && (scannedDot || !IsNumber(CharAt(text, k + 1))) ==>
      NumberStep(text, start)
      == Step(k + 1, [], [MakeError(InvalidNumberLiteral(text[start..k + 1]), PositionAt(text, start))])
    ensures k < |text| && (IsNumber(text[k]) || (text[k] == '.' && !scannedDot && IsNumber(CharAt(text, k + 1)))) ==>
      NumberScan(text, k + 1, scannedDot || text[k] == '.') == NumberScan(text, start + 1, false)
    ensures k < |text| && text[k] != '.' && !IsNumber(text[k]) && IsWhitespace(text[k]) ==>
      NumberStep(text, start)
      == Step(k, [MakeToken(if scannedDot then FixedLiteral else IntegerLiteral, PositionAt(text, start), text[start..k])], [])
    ensures k < |text| && text[k] != '.' && !IsNumber(text[k]) && !IsWhitespace(text[k]) ==>
      NumberStep(text, start)
      == Step(k, [], [MakeError(InvalidNumberLiteral(text[start..k]), PositionAt(text, start))])
  {
  }

  /** A digit starts a number literal, which is reported exactly once, as NumberStepShape says. */
  lemma NumberLiteral(text: string, i: nat)
    requires i < |text| && IsNumber(text[i])
    ensures ScanStep(text, i) == NumberStep(text, i)
    ensures |ScanStep(text, i).tokens| + |ScanStep(text, i).errors| == 1
  {
    hide NumberStep, PositionAt;
    assert SymbolType(text[i]).None? && !IsNewline(text[i]) && text[i] != '"' && text[i] != '/';
  }

  /** A line break yields a newline token; other whitespace and identifier heads yield nothing;
      any other unrecognised character yields one unrecognizedCharacter error at its position;
      in every case scanning goes on with the next character. */
  lemma SingleCharacterLexemes(text: string, i: nat)
    requires i < |text|
    requires SymbolType(text[i]).None? && text[i] != '"' && !IsNumber(text[i])
    ensures var c, at := text[i], PositionAt(text, i);
      && (IsNewline(c) ==> ScanStep(text, i) == Step(i + 1, [MakeToken(Newline, at, [c])], []))
      && (IsWhitespace(c) && !IsNewline(c) ==> ScanStep(text, i) == Step(i + 1, [], []))
      && (IsIdentifierHead(c) ==> ScanStep(text, i) == Step(i + 1, [], []))
      && (!IsNewline(c) && !IsWhitespace(c) && !IsIdentifierHead(c) ==>
            ScanStep(text, i) == Step(i + 1, [], [MakeError(UnrecognizedCharacter(c), at)]))
    ensures ScanStep(text, i).next == i + 1
  {
  }

  // Number literals as the code scans them.

  /** The number-literal loop as written: the end of the input ends the scan with nothing to
      report, and a dot that cannot belong to the literal is left for the next lexeme. */
  function NumberScanAsWritten(text: string, k: nat, scannedDot: bool): (e: NumberEnd)
    requires k <= |text|
    ensures k <= e.stop <= |text|
    ensures e.outcome.Exhausted? <==> e.stop == |text|
    ensures forall m | k <= m < e.stop :: IsNumber(text[m]) || text[m] == '.'
    ensures e.outcome.Accepted? ==> e.stop < |text| && IsWhitespace(text[e.stop])
    ensures e.outcome.Accepted? ==> e.outcome.tokenType in {IntegerLiteral, FixedLiteral}
    ensures e.outcome.Rejected? ==>
      e.stop < |text| && (text[e.stop] == '.' || (!IsWhitespace(text[e.stop]) && !IsNumber(text[e.stop])))
    decreases |text| - k
  {
    if k == |text| then NumberEnd(k, Exhausted)
    else
      var next := text[k];
      if next == '.' && scannedDot then NumberEnd(k, Rejected)
      else if next == '.' && !IsNumber(CharAt(text, k + 1)) then NumberEnd(k, Rejected)
      else if next == '.' then NumberScanAsWritten(text, k + 1, true)
      else if IsNumber(next) then NumberScanAsWritten(text, k + 1, scannedDot)
      else if IsWhitespace(next) then NumberEnd(k, Accepted(if scannedDot then FixedLiteral else IntegerLiteral))
      else NumberEnd(k, Rejected)
  }

  /** The number literal as written, with NumberScanAsWritten: nothing is reported exactly when the
      scan reaches the end of the text; a token is followed by whitespace; an error carries the
      lexeme before the character that stopped the scan, which is left for the next lexeme. */
  function NumberStepAsWritten(text: string, i: nat): (s: Step)
    requires i < |text| && IsNumber(text[i])
    ensures i < s.next <= |text|
    ensures |s.tokens| + |s.errors| <= 1
    ensures s.tokens == [] && s.errors == [] <==> s.next == |text|
    ensures s.tokens != [] ==>
      && s.next < |text| && IsWhitespace(text[s.next])
      && s.tokens[0].lexeme == text[i..s.next] && s.tokens[0].tokenType in {IntegerLiteral, FixedLiteral}
    ensures s.errors != [] ==>
      && s.next < |text| && (text[s.next] == '.' || (!IsWhitespace(text[s.next]) && !IsNumber(text[s.next])))
      && s.errors == [MakeError(InvalidNumberLiteral(text[i..s.next]), PositionAt(text, i))]
  {
    var at := PositionAt(text, i);
    var e := NumberScanAsWritten(text, i + 1, false);
    var lexeme := text[i..e.stop];
    match e.outcome
    case Accepted(t) => Step(e.stop, [MakeToken(t, at, lexeme)], [])
    case Rejected => Step(e.stop, [], [MakeError(InvalidNumberLiteral(lexeme), at)])
    case Exhausted => Step(e.stop, [], [])
  }

  /** The number loop as written stops where the corrected one does and in the same way, except at
      a dot it rejects, which the corrected loop consumes into the rejected lexeme, and at the end of
      the text, where the corrected loop accepts the literal. */
  lemma {:induction false} NumberScanAsWrittenAgrees(text: string, k: nat, scannedDot: bool)
    requires k <= |text|
    ensures var w := NumberScanAsWritten(text, k, scannedDot);
      var c := NumberScan(text, k, scannedDot);
      && (w.outcome.Accepted? ==> c == w)
      && (w.outcome.Rejected? && text[w.stop] != '.' ==> c == w)
      && (w.outcome.Rejected? && text[w.stop] == '.' ==> c == NumberEnd(w.stop + 1, Rejected))
      && (w.outcome.Exhausted? ==> c.stop == |text| && c.outcome.Accepted?)
    decreases |text| - k
  {
    if k < |text| {
      var next := text[k];
      if next == '.' && !scannedDot && IsNumber(CharAt(text, k + 1)) {
        NumberScanAsWrittenAgrees(text, k + 1, true);
      } else if next != '.' && IsNumber(next) {
        NumberScanAsWrittenAgrees(text, k + 1, scannedDot);
      }
    }
  }

  /** Where the code as written gives a token, or rejects a character other than a dot, the
      corrected number literal reports the same. */
  lemma NumberStepAgreesWhereClean(text: string, i: nat)
    requires i < |text| && IsNumber(text[i])
    ensures var w := NumberStepAsWritten(text, i);
      w.tokens != [] || (w.errors != [] && text[w.next] != '.') ==> NumberStep(text, i) == w
  {
    hide PositionAt, MakeToken, MakeError, IsWhitespace;
    NumberScanAsWrittenAgrees(text, i + 1, false);
  }

  /** Where the code as written rejects a dot, the corrected number literal consumes that dot into
      the lexeme of its error. */
  lemma NumberStepAgreesAtDot(text: string, i: nat)
    requires i < |text| && IsNumber(text[i])
    ensures var w := NumberStepAsWritten(text, i);
      w.errors != [] && text[w.next] == '.' ==>
        NumberStep(text, i) == Step(w.next + 1, [], [MakeError(InvalidNumberLiteral(text[i..w.next + 1]), PositionAt(text, i))])
  {
    hide PositionAt, MakeToken, MakeError, IsWhitespace;
    NumberScanAsWrittenAgrees(text, i + 1, false);
  }

  /** Where the code as written reports nothing, the corrected number literal gives the literal that
      runs to the end of the text, fixed exactly when it holds a dot. */
  lemma NumberStepAgreesAtEnd(text: string, i: nat)
    requires i < |text| && IsNumber(text[i])
    ensures var w := NumberStepAsWritten(text, i);
      w.tokens == [] && w.errors == [] ==>
        NumberStep(text, i)
        == Step(|text|, [MakeToken(if HasDot(text[i..]) then FixedLiteral else IntegerLiteral, PositionAt(text, i), text[i..])], [])
  {
    hide PositionAt, MakeToken, MakeError, NumberShape, HasDot, IsWhitespace, NumberScan, NumberScanAsWritten;
    NumberScanAsWrittenAgrees(text, i + 1, false);
    NumberStepShape(text, i);
    var w := NumberStepAsWritten(text, i);
    if w.tokens == [] && w.errors == [] {
      assert NumberScanAsWritten(text, i + 1, false).outcome.Exhausted?;
      assert text[i..|text|] == text[i..];
    }
  }

  /** Where the number literal as written and the corrected one part: see the three lemmas above. */
  lemma NumberStepAsWrittenAgrees(text: string, i: nat)
    requires i < |text| && IsNumber(text[i])
    ensures var w := NumberStepAsWritten(text, i);
      var c := NumberStep(text, i);
      && (w.tokens != [] || (w.errors != [] && text[w.next] != '.') ==> c == w)
      && (w.errors != [] && text[w.next] == '.' ==>
            c == Step(w.next + 1, [], [MakeError(InvalidNumberLiteral(text[i..w.next + 1]), PositionAt(text, i))]))
      && (w.tokens == [] && w.errors == [] ==>
            c == Step(|text|, [MakeToken(if HasDot(text[i..]) then FixedLiteral else IntegerLiteral, PositionAt(text, i), text[i..])], []))
  {
    hide NumberStep, NumberStepAsWritten;
    NumberStepAgreesWhereClean(text, i);
    NumberStepAgreesAtDot(text, i);
    NumberStepAgreesAtEnd(text, i);
  }

  /** A token from the number literal as written has the number shape, and is fixed exactly when it
      holds a dot. */
  lemma NumberStepAsWrittenShape(text: string, i: nat)
    requires i < |text| && IsNumber(text[i])
    ensures var w := NumberStepAsWritten(text, i);
      w.tokens != [] ==>
        && NumberShape(text[i..w.next])
        && w.tokens == [MakeToken(if HasDot(text[i..w.next]) then FixedLiteral else IntegerLiteral, PositionAt(text, i), text[i..w.next])]
  {
    hide NumberStep, NumberStepAsWritten, PositionAt, MakeToken, MakeError, NumberShape, HasDot, IsWhitespace;
    NumberStepAgreesWhereClean(text, i);
    NumberStepShape(text, i);
  }

  /** One pass of the main loop as written: a digit goes to the number literal as written, and
      every other character is dispatched as in ScanStep (a digit is no symbol, quote or line break,
      so the dispatch reaches the number branch for digits only). */
  function ScanStepAsWritten(text: string, i: nat): (s: Step)
    requires i < |text|
    ensures i < s.next <= |text|
    ensures forall t | t in s.tokens :: ScannableType(t.tokenType)
  {
    if IsNumber(text[i]) then NumberStepAsWritten(text, i) else ScanStep(text, i)
  }

  /** Everything the lexer as written emits for the lexemes from index `i` to the end. */
  function ScanFromAsWritten(text: string, i: nat): (r: LexerResults)
    requires i <= |text|
    ensures forall t | t in r.tokens :: ScannableType(t.tokenType)
    decreases |text| - i
  {
    if i == |text| then LexerResults([], [])
    else
      var s := ScanStepAsWritten(text, i);
      var rest := ScanFromAsWritten(text, s.next);
      LexerResults(s.tokens + rest.tokens, s.errors + rest.errors)
  }

  /** `scanAllTokens` as written: the tokens of every lexeme, then endOfFile at the final position. */
  function ScanAsWritten(text: string): (r: LexerResults)
    ensures |r.tokens| > 0 && r.tokens[|r.tokens| - 1] == MakeToken(EndOfFile, PositionAt(text, |text|), "")
  {
    var body := ScanFromAsWritten(text, 0);
    LexerResults(body.tokens + [MakeToken(EndOfFile, PositionAt(text, |text|), "")], body.errors)
  }

  /** The number literal at `i`, as written, stops before the end of the text on a character other
      than a dot. */
  predicate NumberEndsCleanly(text: string, i: nat)
    requires i < |text| && IsNumber(text[i])
  {
    var w := NumberStepAsWritten(text, i);
    w.next < |text| && text[w.next] != '.'
  }

  /** Every number literal the lexer as written meets from `i` on ends cleanly. */
  predicate CleanFrom(text: string, i: nat)
    requires i <= |text|
    decreases |text| - i
  {
    i == |text|
    || ((IsNumber(text[i]) ==> NumberEndsCleanly(text, i)) && CleanFrom(text, ScanStepAsWritten(text, i).next))
  }

  /** From a point after which every number literal ends cleanly, the lexer as written and the
      corrected one emit the same. */
  lemma {:induction false} ScanFromAsWrittenAgrees(text: string, i: nat)
    requires i <= |text| && CleanFrom(text, i)
    ensures ScanFromAsWritten(text, i) == ScanFrom(text, i)
    decreases |text| - i
  {
    hide NumberStep, NumberStepAsWritten, ScanStep;
    if i < |text| {
      if IsNumber(text[i]) {
        NumberLiteral(text, i);
        NumberStepAgreesWhereClean(text, i);
      }
      assert ScanStepAsWritten(text, i) == ScanStep(text, i);
      ScanFromAsWrittenAgrees(text, ScanStep(text, i).next);
    }
  }

  /** When no number literal meets a dot it rejects or the end of the text, `scanAllTokens` as
      written returns what the corrected lexer returns. */
  lemma ScanAsWrittenAgrees(text: string)
    requires CleanFrom(text, 0)
    ensures ScanAsWritten(text) == Scan(text)
  {
    ScanFromAsWrittenAgrees(text, 0);
  }

  /** A text with no dot whose last character is not a digit meets every number literal cleanly. */
  lemma {:induction false} NoDotsCleanFrom(text: string, i: nat)
    requires i <= |text|
    requires forall k | 0 <= k < |text| :: text[k] != '.'
    requires |text| == 0 || !IsNumber(text[|text| - 1])
    ensures CleanFrom(text, i)
    decreases |text| - i
  {
    if i < |text| {
      NoDotsCleanFrom(text, ScanStepAsWritten(text, i).next);
    }
  }

  /** As written, "123" at the end of the input is consumed and reported neither as a token nor as an error. */
  lemma ScanNumberAtEndOfInput()
    ensures NumberStepAsWritten("123", 0) == Step(3, [], [])
  {
    assert NumberScanAsWritten("123", 1, false) == NumberEnd(3, Exhausted);
  }

  /** As written, "12." reports invalidNumberLiteral("12"), and the dot left behind is then scanned
      as a dot token. */
  lemma ScanNumberWithTrailingDot()
    ensures NumberStepAsWritten("12.", 0) == Step(2, [], [Located(InvalidNumberLiteral("12"), 1, 1)])
    ensures ScanStep("12.", 2) == Step(3, [Token(Dot, 1, 3, ".", false)], [])
  {
    var text := "12.";
    assert NumberScanAsWritten(text, 1, false) == NumberEnd(2, Rejected);
    assert text[0..2] == "12";
    assert PositionAt(text, 0) == Position(1, 1);
    assert PositionAt(text, 2) == Position(1, 3);
  }

  /** The whole scans as written: "123" gives only endOfFile and no error; "12." gives the error
      invalidNumberLiteral("12") and then a dot token. */
  lemma ScanAsWrittenNumberExamples()
    ensures ScanAsWritten("123") == LexerResults([Token(EndOfFile, 1, 4, "", false)], [])
    ensures ScanAsWritten("12.") == LexerResults(
      [Token(Dot, 1, 3, ".", false), Token(EndOfFile, 1, 4, "", false)], [Located(InvalidNumberLiteral("12"), 1, 1)])
  {
    ScanNumberAtEndOfInput();
    ScanNumberWithTrailingDot();
    assert PositionAt("123", 3) == Position(1, 4);
    assert PositionAt("12.", 3) == Position(1, 4);
    hide NumberStepAsWritten, ScanStep, PositionAt;
    assert ScanStepAsWritten("12.", 2) == ScanStep("12.", 2);
    assert ScanFromAsWritten("12.", 2) == LexerResults([Token(Dot, 1, 3, ".", false)], []);
  }

  /** With the corrected scanner, "123" is one integer literal and "12." is the single error
      invalidNumberLiteral("12."), each consuming the whole text. */
  lemma IntendedNumberSteps()
    ensures ScanStep("123", 0) == Step(3, [Token(IntegerLiteral, 1, 1, "123", false)], [])
    ensures ScanStep("12.", 0) == Step(3, [], [Located(InvalidNumberLiteral("12."), 1, 1)])
  {
    assert NumberScan("123", 1, false) == NumberEnd(3, Accepted(IntegerLiteral));
    assert "123"[0..3] == "123";
    assert PositionAt("123", 0) == Position(1, 1);
    assert NumberScan("12.", 1, false) == NumberEnd(3, Rejected);
    assert "12."[0..3] == "12.";
    assert PositionAt("12.", 0) == Position(1, 1);
  }

  /** The whole scans of "123" and "12.": the number literal at the end of the input is kept, and
      the dot is part of the rejected lexeme rather than a token of its own. */
  lemma IntendedNumberExamples()
    ensures Scan("123") == LexerResults([Token(IntegerLiteral, 1, 1, "123", false), Token(EndOfFile, 1, 4, "", false)], [])
    ensures Scan("12.") == LexerResults([Token(EndOfFile, 1, 4, "", false)], [Located(InvalidNumberLiteral("12."), 1, 1)])
  {
    hide ScanStep;
    IntendedNumberSteps();
    assert PositionAt("123", 3) == Position(1, 4);
    assert PositionAt("12.", 3) == Position(1, 4);
    ScanFromUnfold("123", 0);
    ScanFromUnfold("12.", 0);
  }

  /** The text of the broken-string example: a quote, "Hi", a line break, "you!", a quote. */
  const BrokenString := "\"Hi\nyou!\""

  /** The two quotes of the broken-string example each open an unterminated string. */
  lemma BrokenStringQuotes()
    ensures ScanStep(BrokenString, 0) == Step(4, [], [Located(UnterminatedString("\"Hi"), 1, 1)])
    ensures ScanStep(BrokenString, 8) == Step(9, [], [Located(UnterminatedString("\""), 2, 5)])
  {
    var text := BrokenString;
    assert PositionAt(text, 0) == Position(1, 1);
    assert PositionAt(text, 8) == Position(2, 5);
    assert StringStop(text, 1) == 3;
    assert text[0..3] == "\"Hi";
    assert StringStop(text, 9) == 9;
    assert text[8..9] == "\"";
  }

  /** Between the quotes, "you" yields nothing and "!" one token. */
  lemma BrokenStringMiddle()
    ensures ScanStep(BrokenString, 4) == Step(5, [], [])
    ensures ScanStep(BrokenString, 5) == Step(6, [], [])
    ensures ScanStep(BrokenString, 6) == Step(7, [], [])
    ensures ScanStep(BrokenString, 7) == Step(8, [Token(Bang, 2, 4, "!", false)], [])
  {
    var text := BrokenString;
    SingleCharacterLexemes(text, 4);
    SingleCharacterLexemes(text, 5);
    SingleCharacterLexemes(text, 6);
    assert PositionAt(text, 7) == Position(2, 4);
    SymbolStep(text, 7);
  }

  /** A string broken by a line break reports two unterminatedString errors: one for the text up
      to the line break, one for the quote that closes the second line; the rest is re-scanned. */
  lemma ScanStringAcrossLineBreak()
    ensures Scan(BrokenString) == LexerResults(
      [Token(Bang, 2, 4, "!", false), Token(EndOfFile, 2, 6, "", false)],
      [Located(UnterminatedString("\"Hi"), 1, 1), Located(UnterminatedString("\""), 2, 5)])
  {
    hide ScanStep;
    var text := BrokenString;
    BrokenStringQuotes();
    BrokenStringMiddle();
    assert PositionAt(text, 9) == Position(2, 6);
    ScanFromUnfold(text, 8);
    ScanFromUnfold(text, 7);
    ScanFromUnfold(text, 6);
    ScanFromUnfold(text, 5);
    ScanFromUnfold(text, 4);
    ScanFromUnfold(text, 0);
  }
}
