/**
 * The token model shared by the lexer and the parser: token types, tokens,
 * the errors both stages report, and positioned errors.
 */
module Tokens {
  import opened Wrappers

  /** The kinds of tokens of the Mosaic grammar. */
  datatype TokenType =
    // Symbols
    | Dot | Comma | Bang | Star | Slash | Percent | Plus | Minus | Equal
    | Ampersand | Pipe | Colon | SingleQuote
    | LeadingParen | TrailingParen | LeadingBrace | TrailingBrace
    | LeadingBracket | TrailingBracket | LessThan | GreaterThan | ReturnArrow
    // Literals
    | StringLiteral | IntegerLiteral | FixedLiteral | ArrayLiteral
    // Special
    | Identifier | EndOfFile | Newline
    // Keywords
    | KeywordStruct | KeywordImpl | KeywordFunc | KeywordVar | KeywordConst
    | KeywordIf | KeywordElse | KeywordEach | KeywordIn | KeywordWhile
    | KeywordReturn | KeywordBreak | KeywordTrue | KeywordFalse | KeywordNil

  /** A single token: its type, 1-based position, lexeme and newline flag. */
  datatype Token = Token(
    tokenType: TokenType,
    line: int,
    column: int,
    lexeme: string,
    isTerminatedWithNewline: bool)

  /** Errors of both stages: the first four are lexical, the last two syntactic. */
  datatype ParseError =
    | UnrecognizedCharacter(character: char)
    | UnterminatedString(partial: string)
    | InvalidNumberLiteral(partial: string)
    | InvalidIdentifier(partial: string)
    | UnexpectedToken(found: TokenType, lexeme: string, message: string)
    | UnexpectedEndOfFile

  /** An error value paired with the line and column where it was detected. */
  datatype Located<+E> = Located(value: E, line: int, column: int)

  /** The kind of a primitive literal. */
  datatype LiteralKind = NilKind | BooleanKind | IntegerKind | FixedKind | StringKind

  /** The token types that denote a literal of kind `k`: an independent table for LiteralKindOf. */
  function TokenTypesOfKind(k: LiteralKind): set<TokenType>
  {
    match k
    case NilKind => {KeywordNil}
    case BooleanKind => {KeywordTrue, KeywordFalse}
    case IntegerKind => {IntegerLiteral}
    case FixedKind => {FixedLiteral}
    case StringKind => {StringLiteral}
  }

  /** The literal kind a token type denotes, if any. */
  function LiteralKindOf(t: TokenType): (r: Option<LiteralKind>)
    ensures r.Some? ==> t in TokenTypesOfKind(r.value)
  {
    match t
    case KeywordNil => Some(NilKind)
    case KeywordTrue | KeywordFalse => Some(BooleanKind)
    case IntegerLiteral => Some(IntegerKind)
    case FixedLiteral => Some(FixedKind)
    case StringLiteral => Some(StringKind)
    case _ => None
  }

  /** LiteralKindOf agrees with the table in both directions: `t` maps to `k` exactly when `t` is listed under `k`. */
  lemma LiteralKindOfMatchesTable(t: TokenType, k: LiteralKind)
    ensures LiteralKindOf(t) == Some(k) <==> t in TokenTypesOfKind(k)
  {
    match k
    case NilKind =>
    case BooleanKind =>
    case IntegerKind =>
    case FixedKind =>
    case StringKind =>
  }

  /** Every token type outside the table, such as arrayLiteral and identifier, has no literal kind. */
  lemma LiteralKindOfOutsideTable(t: TokenType)
    requires forall k: LiteralKind :: t !in TokenTypesOfKind(k)
    ensures LiteralKindOf(t) == None
  {
  }
}
