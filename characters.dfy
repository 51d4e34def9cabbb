/**
 * Character classification used by the lexer. Swift's `Character` properties
 * are Unicode-wide; newline and whitespace follow the Unicode tables, while
 * letters and numbers are restricted to ASCII here.
 */
module Characters {

  /** Swift's `isNewline`: U+000A through U+000D, U+0085, U+2028 and U+2029. */
  predicate IsNewline(c: char)
  {
    ('\n' <= c <= '\r') || c == '\U{85}' || c == '\U{2028}' || c == '\U{2029}'
  }

  /** Swift's `isWhitespace`: the Unicode White_Space property. */
  predicate IsWhitespace(c: char)
  {
    || ('\t' <= c <= '\r') || c == ' ' || c == '\U{85}' || c == '\U{A0}' || c == '\U{1680}'
    || ('\U{2000}' <= c <= '\U{200A}') || c == '\U{2028}' || c == '\U{2029}'
    || c == '\U{202F}' || c == '\U{205F}' || c == '\U{3000}'
  }

  /** Swift's `isNumber`, restricted to the ASCII digits. */
  predicate IsNumber(c: char)
  {
    '0' <= c <= '9'
  }

  /** Swift's `isLetter`, restricted to the ASCII letters. */
  predicate IsLetter(c: char)
  {
    ('a' <= c <= 'z') || ('A' <= c <= 'Z')
  }

  /** A character that may start an identifier: a letter or `_`. */
  predicate IsIdentifierHead(c: char)
    ensures IsIdentifierHead(c) ==> !IsNumber(c) && !IsNewline(c) && !IsWhitespace(c)
  {
    IsLetter(c) || c == '_'
  }

  /** A character that may continue an identifier: an identifier head or a number. */
  predicate IsIdentifierChar(c: char)
    ensures IsIdentifierChar(c) ==> !IsNewline(c) && !IsWhitespace(c)
  {
    IsIdentifierHead(c) || IsNumber(c)
  }

  /** Line breaks are whitespace, so a number literal followed by a line break is accepted. */
  lemma NewlineIsWhitespace(c: char)
    ensures IsNewline(c) ==> IsWhitespace(c)
  {
  }

  /** The identifier character classes: `_` and every letter start an identifier; every head and
      every number continue one; and nothing else does. */
  lemma IdentifierClasses(c: char)
    ensures c == '_' ==> IsIdentifierHead(c)
    ensures IsLetter(c) ==> IsIdentifierHead(c)
    ensures IsIdentifierHead(c) ==> IsIdentifierChar(c)
    ensures IsNumber(c) ==> IsIdentifierChar(c)
    ensures IsIdentifierChar(c) ==> IsIdentifierHead(c) || IsNumber(c)
  {
  }

  /** The lexer's dispatch classes do not overlap: an identifier head is never a number,
      a line break or whitespace, and a number is never whitespace. */
  lemma DispatchClassesDisjoint(c: char)
    ensures IsIdentifierHead(c) ==> !IsNumber(c) && !IsNewline(c) && !IsWhitespace(c)
    ensures IsNumber(c) ==> !IsNewline(c) && !IsWhitespace(c)
  {
  }
}
