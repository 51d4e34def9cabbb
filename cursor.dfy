/**
 * The character cursor: walks a string one character at a time and keeps the
 * 1-based line and column of the next character to be consumed.
 */
module Cursors {
  import opened Characters

  /** A 1-based source position. */
  datatype Position = Position(line: int, column: int)

  /** The position reached by consuming `c` at `p`: a line break starts the next line. */
  function NextPosition(p: Position, c: char): (r: Position)
    ensures p.line >= 1 && p.column >= 1 ==> r.line >= 1 && r.column >= 1
    ensures r.line == p.line <==> !IsNewline(c)
    ensures r.line == p.line ==> r.column == p.column + 1
  {
    if IsNewline(c) then Position(p.line + 1, 1) else Position(p.line, p.column + 1)
  }

  /** The position of the character at index `i` of `text`, starting from line 1, column 1. */
  function PositionAt(text: seq<char>, i: nat): (p: Position)
    requires i <= |text|
    ensures p.line >= 1 && p.column >= 1
  {
    if i == 0 then Position(1, 1) else NextPosition(PositionAt(text, i - 1), text[i - 1])
  }

  /** The indices before `i` that hold a line break. */
  function LineBreaksBefore(text: seq<char>, i: nat): set<nat>
    requires i <= |text|
  {
    set k: nat | k < i && IsNewline(text[k])
  }

  /** The index where the line holding index `i` starts: just after the last line break before `i`. */
  function LineStart(text: seq<char>, i: nat): (k: nat)
    requires i <= |text|
    ensures k <= i
    ensures forall m | k <= m < i :: !IsNewline(text[m])
    ensures k > 0 ==> IsNewline(text[k - 1])
  {
    if i == 0 || IsNewline(text[i - 1]) then i else LineStart(text, i - 1)
  }

  /** Extending the prefix by one character adds that index to the line breaks when it is one. */
  lemma LineBreaksStep(text: seq<char>, i: nat)
    requires 0 < i <= |text|
    ensures IsNewline(text[i - 1]) ==> |LineBreaksBefore(text, i)| == |LineBreaksBefore(text, i - 1)| + 1
    ensures !IsNewline(text[i - 1]) ==> LineBreaksBefore(text, i) == LineBreaksBefore(text, i - 1)
  {
    if IsNewline(text[i - 1]) {
      assert LineBreaksBefore(text, i) == LineBreaksBefore(text, i - 1) + {i - 1};
    } else {
      assert LineBreaksBefore(text, i) == LineBreaksBefore(text, i - 1);
    }
  }

  /** The line is one more than the number of line breaks before `i`, and the column is one
      more than the number of characters since the line started. */
  lemma {:induction false} PositionAtCounts(text: seq<char>, i: nat)
    requires i <= |text|
    ensures PositionAt(text, i).line == 1 + |LineBreaksBefore(text, i)|
    ensures PositionAt(text, i).column == 1 + i - LineStart(text, i)
  {
    if i > 0 {
      PositionAtCounts(text, i - 1);
      LineBreaksStep(text, i);
    }
  }

  class Cursor {
    const text: string
    var currentIndex: nat
    var currentLine: int
    var currentColumn: int

    /** The index never passes the end, and line and column are those of the next character. */
    ghost predicate Valid()
      reads this
    {
      && currentIndex <= |text|
      && Position(currentLine, currentColumn) == PositionAt(text, currentIndex)
    }

    /** A fresh cursor is at index 0, line 1, column 1. */
    constructor (text: string)
      ensures Valid() && this.text == text
      ensures currentIndex == 0 && currentLine == 1 && currentColumn == 1
    {
      this.text := text;
      currentIndex := 0;
      currentLine := 1;
      currentColumn := 1;
    }

    /** Whether every character has been consumed. */
    function IsAtEnd(): (r: bool)
      reads this
      requires Valid()
      ensures r <==> currentIndex == |text|
    {
      currentIndex >= |text|
    }

    /** The character consumed last, or NUL when nothing has been consumed. */
    function Previous(): (c: char)
      reads this
      requires Valid()
      ensures currentIndex == 0 ==> c == '\0'
      ensures currentIndex > 0 ==> c == text[..currentIndex][|text[..currentIndex]| - 1]
    {
      if currentIndex == 0 then '\0' else text[currentIndex - 1]
    }

    /** The character `count` places after the next one, without moving; NUL past the end. */
    function Peek(count: nat): (c: char)
      reads this
      requires Valid()
      ensures currentIndex + count < |text| ==> c == text[currentIndex..][count]
      ensures currentIndex + count >= |text| ==> c == '\0'
    {
      if currentIndex + count < |text| then text[currentIndex + count] else '\0'
    }

    /** Consumes the next character and returns it. */
    method Advance() returns (c: char)
      requires Valid() && !IsAtEnd()
      modifies this
      ensures Valid()
      ensures c == old(text[currentIndex])
      ensures currentIndex == old(currentIndex) + 1
      ensures Position(currentLine, currentColumn)
           == NextPosition(old(Position(currentLine, currentColumn)), c)
    {
      c := text[currentIndex];
      currentIndex := currentIndex + 1;
      AdvanceLineAndColumn(c);
    }

    /** Consumes the next character if it satisfies `test`; reports whether it did. A
        successful match has exactly the effect of Advance; a failed one changes nothing. */
    method Match(test: char -> bool) returns (matched: bool)
      requires Valid()
      modifies this
      ensures Valid()
      ensures matched <==> old(!IsAtEnd() && test(text[currentIndex]))
      ensures matched ==> currentIndex == old(currentIndex) + 1
      ensures matched ==> Position(currentLine, currentColumn)
                          == NextPosition(old(Position(currentLine, currentColumn)), old(text[currentIndex]))
      ensures !matched ==> currentIndex == old(currentIndex)
      ensures !matched ==> currentLine == old(currentLine) && currentColumn == old(currentColumn)
    {
      if IsAtEnd() {
        return false;
      }
      var current := text[currentIndex];
      if !test(current) {
        return false;
      }
      currentIndex := currentIndex + 1;
      AdvanceLineAndColumn(current);
      return true;
    }

    /** Consumes the next character if it is `next`; reports whether it did. */
    method MatchChar(next: char) returns (matched: bool)
      requires Valid()
      modifies this
      ensures Valid()
      ensures matched <==> old(!IsAtEnd() && text[currentIndex] == next)
      ensures matched ==> currentIndex == old(currentIndex) + 1
      ensures matched ==> Position(currentLine, currentColumn)
                          == NextPosition(old(Position(currentLine, currentColumn)), next)
      ensures !matched ==> currentIndex == old(currentIndex)
      ensures !matched ==> currentLine == old(currentLine) && currentColumn == old(currentColumn)
    {
      matched := Match(c => c == next);
    }

    /** A line break moves to column 1 of the next line; anything else moves one column right. */
    method AdvanceLineAndColumn(next: char)
      modifies this`currentLine, this`currentColumn
      ensures IsNewline(next) ==> currentLine == old(currentLine) + 1 && currentColumn == 1
      ensures !IsNewline(next) ==> currentLine == old(currentLine) && currentColumn == old(currentColumn) + 1
    {
      if IsNewline(next) {
        currentLine := currentLine + 1;
        currentColumn := 1;
      } else {
        currentColumn := currentColumn + 1;
      }
    }
  }
}
