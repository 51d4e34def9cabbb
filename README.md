# Mosaic front end in Dafny

A model of the front end of the Mosaic compiler: the character cursor, the single-pass
lexer, the recursive-descent parser for source-file declarations, the loop-nesting parse
contexts, and the small token and character helpers they use.

The project is built in two layers.

- Pure reference definitions say what each stage computes:
  - `Scanning` describes the lexer: `ScanStep` for one lexeme, `ScanFrom` for the rest of
    the text, `Scan` for a whole text.
  - `Grammar` describes the parser, one function per rule. Each function maps a token list
    and an index to a `Parsed` value: the rule's result (its value, or the error it throws)
    and the index where the parser stands afterwards.
  - Lemmas about these functions state what the source promises.
- Imperative classes follow the Swift code:
  - `Cursors.Cursor`, `Lexing.Lexer`, `Parsing.Parser`, `ParseContexts.ParseContext` and
    `LoopContexts.LoopParseContext`.
  - Their fields are updated in place and their loops carry invariants.
  - Each method is proved to produce the state and the result the reference definition gives.
    For example, `Lexer.ScanAllTokens` returns exactly `Scan(fileContents)`, and every
    `Parser.ParseX` method ends where `Grammar.X` says, with the same value or error.

A Swift `throws` becomes a `Result`. The parameter, statement and expression rules have empty
bodies in the source, so the parser takes them as a `Rules` value. The only thing assumed
about them is that they keep the index inside the token list and that a statement that parses
moves the index forward.

Files:

- `wrappers.dfy`: `Option` and `Result`.
- `tokens.dfy`: token types, tokens, errors and `literalKind`.
- `characters.dfy`: character classes.
- `cursor.dfy`: the cursor and the line and column of a text position.
- `scanning.dfy`: the lexer's reference definition.
- `lexer.dfy`: the lexer class.
- `syntax.dfy`: the syntax tree.
- `grammar.dfy`: the parser's reference definition.
- `grammar_shapes.dfy`: what each declaration rule builds from the tokens it reads.
- `grammar_examples.dfy`: token lists from the parser's tests, parsed step by step.
- `parser.dfy`: the parser class.
- `parse_context.dfy` and `loop_context.dfy`: the nesting contexts.

Four places in the source do not do what its tests expect (see Findings). For each one the
model does two things:

- It keeps the code as written as a separate definition and proves a lemma that shows the
  misbehaviour.
- The classes and the reference definitions they are proved against use the corrected
  behaviour.

The lexer's handling of other text follows the code:

- A line break inside a string literal is consumed together with the error.
- A comment consumes its closing line break.
- Line breaks become `newline` tokens.
- The lexer produces no keywords and no `->` token.

## Model

| member | source | states |
|---|---|---|
| Tokens.LiteralKindOf | Sources/Mosaic/Extensions/TokenType+Additions.swift:2-17 | a token type with a literal kind is one listed under that kind; `LiteralKindOfMatchesTable` gives the converse |
| Tokens.LiteralKindOfMatchesTable | Sources/Mosaic/Extensions/TokenType+Additions.swift:2-17 | `literalKind` is `k` exactly when the token type is one the switch lists for `k`: `keywordNil` gives nil; `keywordTrue` and `keywordFalse` give boolean; integer, fixed and string literals give their kinds |
| Tokens.LiteralKindOfOutsideTable | Sources/Mosaic/Extensions/TokenType+Additions.swift:14-15 | every other token type, `identifier` and `arrayLiteral` included, has no literal kind |
| Characters.IsIdentifierHead | Sources/Mosaic/Character+Additions.swift:4-7 | an identifier head is never a digit, a line break or whitespace, so the lexer's dispatch reaches it only for letters and `_` |
| Characters.IsIdentifierChar | Sources/Mosaic/Character+Additions.swift:9-11 | an identifier character is never a line break or whitespace |
| Characters.IdentifierClasses | Sources/Mosaic/Character+Additions.swift:4-11 | `_` and every letter are identifier heads; heads and digits are identifier characters; an identifier character is a head or a digit |
| Characters.DispatchClassesDisjoint | Sources/Mosaic/Lexer.swift:119-131 | the default branch's classes do not overlap: an identifier head is not a digit, line break or whitespace, and a digit is neither a line break nor whitespace |
| Characters.NewlineIsWhitespace | Sources/Mosaic/Lexer.swift:120-128 | every line break is whitespace, so the line-break test must come before the whitespace test |
| Cursors.PositionAt | Sources/Mosaic/Cursor.swift:69-76 | the line and column reached after consuming a prefix of the text are both at least 1 |
| Cursors.LineStart | Sources/Mosaic/Cursor.swift:69-76 | the start of the current line: no line break between it and the index, and a line break just before it unless it is 0 |
| Cursors.NextPosition | Sources/Mosaic/Cursor.swift:69-76 | positions stay 1-based; the line changes exactly when the character is a line break; otherwise the column grows by one |
| Cursors.PositionAtCounts | Sources/Mosaic/Cursor.swift:69-76 | the line is 1 plus the number of line breaks consumed; the column is 1 plus the distance from the start of the line |
| Cursors.Cursor.constructor | Sources/Mosaic/Cursor.swift:19-22 | a fresh cursor is at index 0, line 1, column 1 |
| Cursors.Cursor.IsAtEnd | Sources/Mosaic/Cursor.swift:9-11 | true exactly when the index equals the text length |
| Cursors.Cursor.Previous | Sources/Mosaic/Cursor.swift:14-17 | `'\0'` before anything is consumed, otherwise the character just before the index |
| Cursors.Cursor.Peek | Sources/Mosaic/Cursor.swift:58-65 | the character `count` places ahead, or `'\0'` past the end; reads the state without changing it |
| Cursors.Cursor.Advance | Sources/Mosaic/Cursor.swift:26-35 | requires not at end; returns the character at the index, moves the index by exactly one, and moves line and column past that character |
| Cursors.Cursor.Match | Sources/Mosaic/Cursor.swift:45-54 | advances exactly when not at end and the predicate holds for the next character, with the same effect as `advance`; otherwise index, line and column are unchanged |
| Cursors.Cursor.MatchChar | Sources/Mosaic/Cursor.swift:39-41 | `match(next:)`: as `Match` with the test "equals `next`" |
| Cursors.Cursor.AdvanceLineAndColumn | Sources/Mosaic/Cursor.swift:69-76 | a line break moves to the next line at column 1; any other character moves one column right on the same line |
| Scanning.StringStop | Sources/Mosaic/Lexer.swift:138-151 | the string loop stops at the first closing quote or line break, or at the end of the text |
| Scanning.LineStop | Sources/Mosaic/Lexer.swift:156-160 | the comment loop stops at the first line break, or at the end of the text |
| Scanning.StringStep | Sources/Mosaic/Lexer.swift:135-154 | a string literal always consumes its opening quote and stays inside the text; the token or error it gives is characterised by `ClosedStringLiteral` and `UnterminatedStringLiteral` |
| Scanning.CommentStep | Sources/Mosaic/Lexer.swift:156-160 | a comment always consumes its `//` and stays inside the text; `CommentSkipped` states what it consumes |
| Scanning.NumberScan | Sources/Mosaic/Lexer.swift:166-190 | the number loop (corrected) consumes only digits and dots; it accepts a fixed or integer literal only at the end of the text or before whitespace; it rejects after a dot it cannot take, or before any other character |
| Scanning.NumberStep | Sources/Mosaic/Lexer.swift:162-190 | a number literal is reported exactly once, as a token or as an error, with the whole consumed text as its lexeme |
| Scanning.ScanStep | Sources/Mosaic/Lexer.swift:70-133 | one pass of the main loop consumes at least one character and emits only token types the lexer can produce |
| Scanning.ScanFrom | Sources/Mosaic/Lexer.swift:29-32 | the main loop's output from an index consists of scannable token types only |
| Scanning.Scan | Sources/Mosaic/Lexer.swift:24-38 | a scan ends with an `endOfFile` token at the line and column after the last character |
| Scanning.SymbolType | Sources/Mosaic/Lexer.swift:73-118 | each symbol gives a type the lexer can emit, never `newline`; identifier characters, whitespace and `"` are no symbols |
| Scanning.ScanEndsWithEndOfFile | Sources/Mosaic/Lexer.swift:24-38 | the last token of every scan is its only `endOfFile`; it has an empty lexeme and sits at the final line and column; empty text gives just that token and no error |
| Scanning.SymbolStep | Sources/Mosaic/Lexer.swift:73-118 | a symbol character, other than a `/` that starts a comment, gives one token of its type with that character as its lexeme |
| Scanning.ScanSymbols | Sources/Mosaic/Lexer.swift:73-112 | a text of symbol characters gives one token per character, in order and at its own position, then `endOfFile`, and no errors |
| Scanning.CommentSkipped | Sources/Mosaic/Lexer.swift:156-160 | `//` gives no token and no error; it consumes everything up to and including the next line break |
| Scanning.ClosedStringLiteral | Sources/Mosaic/Lexer.swift:135-150 | a closed string gives one `stringLiteral` whose lexeme starts and ends with `"` and holds no line break |
| Scanning.UnterminatedStringLiteral | Sources/Mosaic/Lexer.swift:138-154 | a line break or the end of the text before the closing quote gives exactly one `unterminatedString` error carrying the partial lexeme, and no token |
| Scanning.ScanStringAcrossLineBreak | Sources/Mosaic/Lexer.swift:135-154 | scanning `"Hi` newline `you!"` gives two unterminated-string errors and a `bang` token at 2:4; the consumed line break is not reported |
| Scanning.NumberScanShape | Sources/Mosaic/Lexer.swift:166-184 | an accepted lexeme is digits with at most one dot, and a digit follows that dot; the token is `fixedLiteral` exactly when the lexeme holds a dot |
| Scanning.NumberStepShape | Sources/Mosaic/Lexer.swift:162-190 | a number gives a token exactly when its lexeme has the number shape and the end of the text or whitespace follows; the token's type and position; otherwise one `invalidNumberLiteral` carrying the lexeme |
| Scanning.NumberLiteral | Sources/Mosaic/Lexer.swift:122-123 | a digit is dispatched to the number scanner, which reports exactly once |
| Scanning.SingleCharacterLexemes | Sources/Mosaic/Lexer.swift:119-131 | a line break gives a `newline` token; other whitespace and identifier heads give nothing; any other character gives one `unrecognizedCharacter` error at its position; scanning continues at the next character |
| Scanning.NumberScanAsWritten | Sources/Mosaic/Lexer.swift:166-190 | the number loop as written consumes only digits and dots; it ends with nothing to report exactly when it reaches the end of the text; it accepts an integer or fixed literal only before whitespace; it rejects before a dot it cannot take, which it leaves unconsumed, or before any other character that is neither whitespace nor a digit |
| Scanning.NumberStepAsWritten | Sources/Mosaic/Lexer.swift:162-190 | the number literal as written reports at most once, and reports nothing exactly when it reaches the end of the text; a token's lexeme is the consumed text and whitespace follows it; an error carries the consumed text, without the rejected character, at the literal's start |
| Scanning.NumberScanAsWrittenAgrees | Sources/Mosaic/Lexer.swift:166-190 | the number loop as written and the corrected one agree when the literal is accepted or rejected before a character other than a dot; before a dot the corrected loop also consumes the dot; where the loop as written runs off the end, the corrected one accepts |
| Scanning.NumberStepAgreesWhereClean | Sources/Mosaic/Lexer.swift:162-190 | a number as written that gives a token, or an error before a character other than a dot, gives the same step as the corrected one |
| Scanning.NumberStepAgreesAtDot | Sources/Mosaic/Lexer.swift:168-175 | where the number as written is rejected before a dot, the corrected one consumes that dot and reports the lexeme with it |
| Scanning.NumberStepAgreesAtEnd | Sources/Mosaic/Lexer.swift:166-191 | where the number as written reaches the end of the text and reports nothing, the corrected one reports the rest of the text as one literal |
| Scanning.NumberStepAsWrittenAgrees | Sources/Mosaic/Lexer.swift:162-191 | the three cases above together |
| Scanning.NumberStepAsWrittenShape | Sources/Mosaic/Lexer.swift:162-190 | a token from the number as written has the number shape, and is fixed exactly when its lexeme holds a dot |
| Scanning.ScanStepAsWritten | Sources/Mosaic/Lexer.swift:29-32 | one pass of the main loop as written consumes at least one character, stays within the text and emits only types the lexer can emit |
| Scanning.ScanFromAsWritten | Sources/Mosaic/Lexer.swift:29-32 | the main loop as written emits only types the lexer can emit; `ScanFromAsWrittenAgrees` ties it to the corrected loop |
| Scanning.ScanAsWritten | Sources/Mosaic/Lexer.swift:24-38 | `scanAllTokens` with the number scanner as written; it still ends with `endOfFile` at the final line and column |
| Scanning.ScanFromAsWrittenAgrees | Sources/Mosaic/Lexer.swift:29-32 | from an index where no number meets a dot it rejects or the end of the text, the main loop as written gives the corrected result |
| Scanning.ScanAsWrittenAgrees | Sources/Mosaic/Lexer.swift:24-38 | on such texts the lexer as written and the corrected one give the same tokens and errors |
| Scanning.NoDotsCleanFrom | Sources/Mosaic/Lexer.swift:166-190 | a text without dots that does not end in a digit is such a text |
| Scanning.ScanAsWrittenNumberExamples | Tests/MosaicTests/LexerTests.swift:52-87 | as written: `123` gives only `endOfFile` and no error; `12.` gives a `dot` at 1:3 and `endOfFile`, and the error `invalidNumberLiteral("12")` at 1:1 |
| Scanning.ScanNumberAtEndOfInput | Sources/Mosaic/Lexer.swift:166-191 | as written, `123` at the end of the text is consumed without a token or an error |
| Scanning.ScanNumberWithTrailingDot | Sources/Mosaic/Lexer.swift:172-175 | as written, `12.` reports `invalidNumberLiteral("12")`, and the dot then becomes a `dot` token |
| Scanning.IntendedNumberSteps | Tests/MosaicTests/LexerTests.swift:52-87 | corrected: `123` is one `integerLiteral`, and `12.` is the single error `invalidNumberLiteral("12.")` |
| Scanning.IntendedNumberExamples | Tests/MosaicTests/LexerTests.swift:52-87 | corrected whole scans: `123` gives `[integerLiteral "123", endOfFile]`; `12.` gives `[endOfFile]` and the error `invalidNumberLiteral("12.")` at 1:1 |
| Lexing.Lexer.constructor | Sources/Mosaic/Lexer.swift:9-15 | empty buffers; lexeme position 0:0 |
| Lexing.Lexer.ScanAllTokens | Sources/Mosaic/Lexer.swift:24-38 | resets both buffers and returns exactly `Scan(fileContents)`, which its buffers also hold |
| Lexing.Lexer.StartNewLexeme | Sources/Mosaic/Lexer.swift:42-45 | the lexeme position becomes the cursor's line and column |
| Lexing.Lexer.MakeToken | Sources/Mosaic/Lexer.swift:48-57 | appends one token at the lexeme position, not marked as ending with a line break |
| Lexing.Lexer.EmitError | Sources/Mosaic/Lexer.swift:60-68 | appends one error at the lexeme position |
| Lexing.Lexer.ScanNextToken | Sources/Mosaic/Lexer.swift:70-133 | moves the cursor and appends tokens and errors exactly as `ScanStep` says |
| Lexing.Lexer.ScanStringLiteral | Sources/Mosaic/Lexer.swift:135-154 | the loop over the string's characters matches `StringStep` |
| Lexing.Lexer.ScanCommentLine | Sources/Mosaic/Lexer.swift:156-160 | the cursor ends just past the next line break, or at the end of the text |
| Lexing.Lexer.ScanNumberLiteral | Sources/Mosaic/Lexer.swift:162-191 | the number loop, corrected as in Findings, matches `NumberStep` |
| Grammar.Present | Sources/Mosaic/Parser.swift:83-91 | wrapping an optional part keeps its index and its success or failure |
| Grammar.AtEnd | Sources/Mosaic/Parser.swift:218-220 | at `endOfFile`, `skipNewlines` does not move |
| Grammar.SkipNewlines | Sources/Mosaic/Parser.swift:300-304 | steps over exactly the newline tokens ahead; never passes `endOfFile` |
| Grammar.Match | Sources/Mosaic/Parser.swift:233-242 | skips newlines only, then advances one token exactly when it has the given type and is not `endOfFile`; the index stays inside the list |
| Grammar.WillMatchFrom | Sources/Mosaic/Parser.swift:246-268 | when `willMatch` holds, `match` of its first type succeeds at the same index |
| Grammar.WillMatchIsPrefix | Sources/Mosaic/Parser.swift:246-268 | `willMatch` holds exactly when the given types are a prefix of the non-newline tokens ahead before `endOfFile` |
| Grammar.Consume | Sources/Mosaic/Parser.swift:271-276 | returns a token of the given type just consumed, or throws `unexpectedToken` with the type and lexeme of the token after the newlines |
| Grammar.ConsumeNext | Sources/Mosaic/Parser.swift:279-286 | consumes the next non-newline token, or throws `unexpectedEndOfFile` at `endOfFile` |
| Grammar.VerifyStatementEnd | Sources/Mosaic/Parser.swift:290-298 | corrected: accepts exactly when the current token is `newline`, `}` or `endOfFile`, or a line break comes just before it; otherwise the unterminated-statement error |
| Grammar.Synchronize | Sources/Mosaic/Parser.swift:312-321 | never moves back; stops at the first `struct`, `impl` or `func`, or at `endOfFile` |
| Grammar.VariableMutability | Sources/Mosaic/Parser.swift:103-110 | succeeds exactly on `var` or `const` after newlines, giving variable exactly for `var` |
| Grammar.TypeIdentifier | Sources/Mosaic/Parser.swift:127-138 | a type identifier that parses consumed tokens and is named by an identifier; `TypeIdentifierShape` states the rest |
| Grammar.SingleGenericIdentifier | Sources/Mosaic/Parser.swift:154-163 | a generic argument that parses consumed tokens; `SingleGenericIdentifierShape` states which kind it is |
| Grammar.GenericIdentifierList | Sources/Mosaic/Parser.swift:132-134 | the comma loop of generic arguments moves forward on success; its contents and closing `>` are stated by the `GenericIdentifierList` lemmas below |
| Grammar.SingleGenericDeclaration | Sources/Mosaic/Parser.swift:140-152 | a value generic exactly when a `'` was matched, otherwise a type generic |
| Grammar.GenericDeclarationList | Sources/Mosaic/Parser.swift:118-120 | the comma loop of generic parameters moves forward on success; its contents and closing `>` are stated by the `GenericDeclarationList` lemmas below |
| Grammar.TypeDeclaration | Sources/Mosaic/Parser.swift:112-125 | a type declaration that parses consumed tokens and is named by an identifier; `TypeDeclarationShape` states the rest |
| Grammar.VariableDeclaration | Sources/Mosaic/Parser.swift:79-101 | a `var` or `const` always moves the parser; a declaration that parses is named by an identifier and is followed by a statement end; `VariableDeclarationShape` states the rest |
| Grammar.VariableTail | Sources/Mosaic/Parser.swift:83-93 | the optional type and value that parse are followed by a statement end; `VariableTailShape` ties them to `:` and `=` |
| Grammar.StructBody | Sources/Mosaic/Parser.swift:72-75 | the member loop stays inside the token list; the `StructBody` lemmas below state what it reads and where it stops |
| Grammar.StructureDeclaration | Sources/Mosaic/Parser.swift:68-77 | a leading `struct` always moves the parser; `StructureDeclarationShape` states what it builds |
| Grammar.ParameterList | Sources/Mosaic/Parser.swift:172-175 | the parameter loop moves forward on success; `ParameterListCloses` states that it ends on `)` |
| Grammar.StatementsLoop | Sources/Mosaic/Parser.swift:200-204 | the statement loop moves forward on success |
| Grammar.StatementsBlock | Sources/Mosaic/Parser.swift:198-206 | a block that parses consumed tokens |
| Grammar.StatementsLoopClosesBrace | Sources/Mosaic/Parser.swift:200-204 | when the statement loop succeeds, the last token it consumed is `}` |
| Grammar.StatementsBlockClosesBrace | Sources/Mosaic/Parser.swift:198-206 | a block that parses ends with its closing `}` |
| Grammar.FunctionParameters | Sources/Mosaic/Parser.swift:170-177 | a parameter list that parses consumed tokens; `FunctionParametersShape` states the rest |
| Grammar.FunctionDeclaration | Sources/Mosaic/Parser.swift:165-192 | a leading `func` always moves the parser; `FunctionDeclarationShape` states what it builds |
| Grammar.InSourceDeclaration | Sources/Mosaic/Parser.swift:54-66 | never stops before the newlines; a declaration that parses, or one that starts with `struct`, `func`, `var` or `const`, moves the parser |
| Grammar.RootPass | Sources/Mosaic/Parser.swift:36-44 | one pass of the root loop adds exactly one declaration or one error and never moves back |
| Grammar.SourceFileLoop | Sources/Mosaic/Parser.swift:35-45 | the root loop as written, over the corrected declaration rules, bounded by fuel: when it ends, it is at `endOfFile` and has only added declarations and errors |
| Grammar.RootPassProgress | Sources/Mosaic/Parser.swift:35-45 | unless the token after the newlines is `impl`, a pass moves forward |
| Grammar.SourceFileLoopTerminates | Sources/Mosaic/Parser.swift:35-45 | without `impl` tokens, the root loop ends within as many passes as there are tokens |
| Grammar.SourceFileLoopFuel | Sources/Mosaic/Parser.swift:35-45 | once the loop ends, more fuel gives the same result |
| Grammar.StuckSourceFileLoop | Sources/Mosaic/Parser.swift:35-45 | a pass that does not move means the loop never ends |
| Grammar.ImplAtRootLoopsForever | Sources/Mosaic/Parser.swift:54-66 | an `impl` after the newlines at the root makes the loop as written run forever |
| Grammar.RootPassIntended | Sources/Mosaic/Parser.swift:36-44 | the corrected pass always moves forward: when recovery would stop on the first token after the newlines, it steps past that token |
| Grammar.InSourceDeclarationAfterNewlines | Sources/Mosaic/Parser.swift:55 | reading a root declaration skips the newlines first, so starting after them gives the same result |
| Grammar.RootPassIntendedSteps | Sources/Mosaic/Parser.swift:36-44 | a corrected pass keeps the declaration read after the newlines when it parses; otherwise it records the error at the token where reading stopped and recovers, stepping one token on when recovery stays on the first token after the newlines |
| Grammar.ImplAtRootReportedOnce | Sources/Mosaic/Parser.swift:54-65 | corrected: an `impl` after the newlines at the root is recorded once, as `unexpectedToken` with the root message at its own line and column, and the next pass starts just after it |
| Grammar.ImplAfterLineBreakReportedOnce | Sources/Mosaic/Parser.swift:35-65 | corrected: newline, `impl`, `endOfFile` gives no declaration and the single error at 2:1 |
| Grammar.SourceFileLoopIntended | Sources/Mosaic/Parser.swift:35-45 | the corrected root loop always ends at `endOfFile`, only adding declarations and errors |
| Grammar.SourceFileLoopIntendedAgrees | Sources/Mosaic/Parser.swift:35-45 | wherever the loop as written ends, the corrected loop gives the same declarations, errors and index |
| Grammar.RootTokenNotAllowed | Sources/Mosaic/Parser.swift:54-65 | a root token other than `struct`, `func`, `var` or `const` records `unexpectedToken` with the root message at that token, then recovers |
| Grammar.TrailingNewlineAtRoot | Sources/Mosaic/Parser.swift:54-65 | trailing line breaks at the root are reported as `endOfFile` not allowed in the root |
| Grammar.ParseTokens | Sources/Mosaic/Parser.swift:20-52 | `parse` with the root loop as written: it returns exactly when that loop ends; then it succeeds exactly when no lexical or syntactic error was recorded, with the loop's declarations and `endOfFile`, and otherwise fails with all recorded errors, the lexer's first |
| Grammar.ParseTokensIntended | Sources/Mosaic/Parser.swift:20-52 | `parse` with the corrected loop always returns; it succeeds exactly when no lexical or syntactic error was recorded, with the loop's declarations and `endOfFile`, and otherwise fails with all recorded errors, the lexer's first |
| Grammar.ParseTokensIntendedAgrees | Sources/Mosaic/Parser.swift:20-52 | whenever `parse` as written returns, the corrected one returns the same |
| Grammar.ParseTerminates | Sources/Mosaic/Parser.swift:20-52 | without `impl` tokens, `parse` as written returns |
| Grammar.EmptyTokenListParses | Sources/Mosaic/Parser.swift:47-51 | a list holding only `endOfFile` parses to an empty source file |
| Grammar.VerifyStatementEndAsWritten | Sources/Mosaic/Parser.swift:290-298 | as written: accepts exactly when the current token is `newline`, `}` or `endOfFile` |
| Grammar.VariableTailAsWritten | Sources/Mosaic/Parser.swift:83-93 | the declaration tail with the check as written: success only when a statement-ending token is current |
| Grammar.LostStatementTerminator | Sources/Mosaic/Parser.swift:84-93 | as written, a line break after a name with no type or value is stepped over by `match`, and the declaration is reported unterminated at the next token |
| Grammar.TwoDeclarationsAsWritten | Sources/Mosaic/Parser.swift:84-93 | as written, `var x` newline `var y` fails at the second `var` |
| Grammar.IntendedTerminatorKept | Sources/Mosaic/Parser.swift:84-93 | corrected: a line break after a name with no `:` or `=` ends the declaration, with no type and no value |
| Grammar.TypeIdentifierBeforeLineBreak | Sources/Mosaic/Parser.swift:127-138 | a type name followed by a line break and then something other than `<` is a type with no generics; `match(.lessThan)` leaves the index past the line break |
| Grammar.TypedTerminatorLost | Sources/Mosaic/Parser.swift:84-93 | as written, `: T` followed by a line break and a token that is not `<`, `=` or a statement end is reported unterminated at that token, past the line break |
| Grammar.TypedTerminatorKept | Sources/Mosaic/Parser.swift:84-93 | corrected: `: T` followed by a line break and a token other than `<` or `=` ends the declaration, with type `T` and no value |
| Grammar.IntendedTwoDeclarations | Sources/Mosaic/Parser.swift:84-93 | corrected: `var x` newline `var y` parses its first declaration, and the next one starts at the second `var` |
| GrammarShapes.GenericIdentifierListTurn | Sources/Mosaic/Parser.swift:132-134 | after a comma, the argument list reads one generic argument and continues with it appended; a failing argument fails the list |
| GrammarShapes.GenericIdentifierListEnd | Sources/Mosaic/Parser.swift:132-135 | with no further comma the argument list keeps what it read and ends on the closing `>` |
| GrammarShapes.GenericIdentifierListCloses | Sources/Mosaic/Parser.swift:132-135 | an argument list that parses ends on the closing `>` |
| GrammarShapes.GenericIdentifierListKeeps | Sources/Mosaic/Parser.swift:132-134 | the argument list keeps the arguments read before it, and adds any exactly when a comma comes first |
| GrammarShapes.TypeIdentifierName | Sources/Mosaic/Parser.swift:128 | a type identifier is named by the first token after the newlines |
| GrammarShapes.TypeIdentifierGenerics | Sources/Mosaic/Parser.swift:130-135 | a type identifier has generic arguments exactly when `<` follows its name |
| GrammarShapes.TypeIdentifierCloses | Sources/Mosaic/Parser.swift:135 | a type identifier with generic arguments ends on the closing `>` |
| GrammarShapes.TypeIdentifierShape | Sources/Mosaic/Parser.swift:127-138 | name, generics exactly after `<`, and the closing `>`, together |
| GrammarShapes.SingleGenericIdentifierShape | Sources/Mosaic/Parser.swift:154-163 | a generic argument is a value exactly when the token after the newlines is a literal, and then it is that one token with its literal kind; otherwise it is a type named by that token |
| GrammarShapes.GenericDeclarationListTurn | Sources/Mosaic/Parser.swift:118-120 | after a comma, the parameter list reads one generic parameter and continues with it appended; a failing parameter fails the list |
| GrammarShapes.GenericDeclarationListEnd | Sources/Mosaic/Parser.swift:118-121 | with no further comma the parameter list keeps what it read and ends on the closing `>` |
| GrammarShapes.GenericDeclarationListCloses | Sources/Mosaic/Parser.swift:118-121 | a generic parameter list that parses ends on the closing `>` |
| GrammarShapes.GenericDeclarationListKeeps | Sources/Mosaic/Parser.swift:118-120 | the parameter list keeps the parameters read before it, and adds any exactly when a comma comes first |
| GrammarShapes.TypeDeclarationName | Sources/Mosaic/Parser.swift:113 | a type declaration is named by the first token after the newlines |
| GrammarShapes.TypeDeclarationGenerics | Sources/Mosaic/Parser.swift:115-121 | a type declaration has generic parameters exactly when `<` follows its name |
| GrammarShapes.TypeDeclarationCloses | Sources/Mosaic/Parser.swift:121 | a type declaration with generic parameters ends on the closing `>` |
| GrammarShapes.TypeDeclarationShape | Sources/Mosaic/Parser.swift:112-125 | name, generics exactly after `<`, and the closing `>`, together |
| GrammarShapes.VariableTailShape | Sources/Mosaic/Parser.swift:83-93 | the type is present exactly when `:` is matched and is the type identifier read after it; the value is present exactly when `=` is matched next and is the expression read after it; the tail stops where that expression or match stops |
| GrammarShapes.VariableDeclarationKeyword | Sources/Mosaic/Parser.swift:103-110 | a declaration that parses starts with `var` or `const` and is a variable exactly for `var` |
| GrammarShapes.VariableDeclarationName | Sources/Mosaic/Parser.swift:81 | a declaration that parses is named by the token after its keyword |
| GrammarShapes.VariableDeclarationTail | Sources/Mosaic/Parser.swift:83-100 | the type and value are what the tail after the name reads, and the declaration stops where the tail does |
| GrammarShapes.VariableDeclarationShape | Sources/Mosaic/Parser.swift:79-101 | keyword, name, type exactly after `:`, and the tail, together |
| GrammarShapes.StructBodyTurn | Sources/Mosaic/Parser.swift:72-75 | not at the end and no `}`: the member loop reads one variable declaration and continues with it appended; a failing declaration fails the struct |
| GrammarShapes.StructBodyEnd | Sources/Mosaic/Parser.swift:73 | at `endOfFile` or a `}` the member loop stops with what it read, right after the `}` |
| GrammarShapes.StructBodyCloses | Sources/Mosaic/Parser.swift:72-75 | the member loop keeps the members read before it and stops at `endOfFile` or right after a `}` |
| GrammarShapes.StructureDeclarationParts | Sources/Mosaic/Parser.swift:68-77 | a struct starts with `struct`; its type is the type declaration read next; a `{` follows; its variables are what the member loop reads, where the struct stops |
| GrammarShapes.StructureDeclarationShape | Sources/Mosaic/Parser.swift:68-77 | the parts above, the struct named by the token after `struct`, and the end at `endOfFile` or right after `}` |
| GrammarShapes.ParameterListTurn | Sources/Mosaic/Parser.swift:173-175 | after a comma, the parameter list reads one parameter and continues with it appended; a failing parameter fails the list |
| GrammarShapes.ParameterListEnd | Sources/Mosaic/Parser.swift:173-176 | with no further comma the parameter list keeps what it read and ends on `)` |
| GrammarShapes.ParameterListCloses | Sources/Mosaic/Parser.swift:173-176 | a parameter list keeps the parameters read before it and ends on `)` |
| GrammarShapes.FunctionParametersShape | Sources/Mosaic/Parser.swift:170-177 | the parameters end on `)`, and there are none exactly when `)` comes first |
| GrammarShapes.FunctionDeclarationHead | Sources/Mosaic/Parser.swift:165-172 | a function starts with `func`, is named by the identifier after it, a `(` follows, and its parameters are read after that |
| GrammarShapes.FunctionDeclarationParts | Sources/Mosaic/Parser.swift:165-192 | head as above; the return type is present exactly when `->` follows the parameters and is the type identifier read after it; the statements are the block read next, where the function stops |
| GrammarShapes.FunctionDeclarationShape | Sources/Mosaic/Parser.swift:165-192 | the parts above, with the parameters ending on `)` and the function ending on `}` |
| GrammarExamples.MatchHit | Sources/Mosaic/Parser.swift:233-242 | `match` on a token of the wanted type with no line break before it steps over that token |
| GrammarExamples.MatchMiss | Sources/Mosaic/Parser.swift:233-242 | `match` on a token of another type with no line break before it stays |
| GrammarExamples.TypeIdentifierPlain | Sources/Mosaic/Parser.swift:127-138 | a type name followed by neither `<` nor a line break is a type identifier without generics |
| GrammarExamples.TypeDeclarationPlain | Sources/Mosaic/Parser.swift:112-125 | a declared type name followed by neither `<` nor a line break has no generic parameters |
| GrammarExamples.RootPassParses | Sources/Mosaic/Parser.swift:36-37 | a root declaration that parses is appended and the pass ends where it does |
| GrammarExamples.EmptyStructDeclaration | Tests/MosaicTests/ParserTests.swift:21-39 | `struct FooBar {` newline `}` is a struct named FooBar with no generics and no variables |
| GrammarExamples.EmptyStructParses | Tests/MosaicTests/ParserTests.swift:21-39 | the test's empty struct parses to a source file holding just that struct |
| GrammarExamples.TailWithValue | Sources/Mosaic/Parser.swift:83-93 | `= value` then a statement end: no type, that value |
| GrammarExamples.TailWithTypeAndValue | Sources/Mosaic/Parser.swift:83-93 | `: Type = value` then a statement end: that type without generics and that value |
| GrammarExamples.TailWithType | Sources/Mosaic/Parser.swift:83-93 | `: Type` then `endOfFile`: that type and no value |
| GrammarExamples.VariableDeclarationOf | Sources/Mosaic/Parser.swift:79-101 | a declaration is its keyword, the name right after it, and its tail |
| GrammarExamples.ConstantKeywordAt | Sources/Mosaic/Parser.swift:103-110 | `const` gives a constant and steps over the keyword |
| GrammarExamples.ConstantWithTypeAndValue | Sources/Mosaic/Parser.swift:79-101 | `const name: Type = value` then a statement end is a constant with that name, type and value |
| GrammarExamples.FirstVariable | Tests/MosaicTests/ParserTests.swift:106-136 | `var foo = 123` is a variable named foo with no type and the literal as its value |
| GrammarExamples.SecondVariable | Tests/MosaicTests/ParserTests.swift:106-136 | `const bar: String = "abc"` is a constant named bar of type String with the literal as its value |
| GrammarExamples.ThirdVariable | Tests/MosaicTests/ParserTests.swift:106-136 | `var fizz: UInt8` is a variable named fizz of type UInt8 with no value |
| GrammarExamples.InSourceVariable | Sources/Mosaic/Parser.swift:54-66 | a root declaration that starts with `var` or `const` is the variable declaration read there |
| GrammarExamples.LoopStep | Sources/Mosaic/Parser.swift:35-45 | away from `endOfFile`, the root loop is one pass followed by the rest of the loop |
| GrammarExamples.LoopEnd | Sources/Mosaic/Parser.swift:35 | at `endOfFile` the root loop stops |
| GrammarExamples.FirstPass | Tests/MosaicTests/ParserTests.swift:106-136 | the first root pass reads `var foo = 123` and stops at the line break |
| GrammarExamples.SecondPass | Tests/MosaicTests/ParserTests.swift:106-136 | the second pass skips that line break and reads the `const` line |
| GrammarExamples.ThirdPass | Tests/MosaicTests/ParserTests.swift:106-136 | the third pass reads `var fizz: UInt8` up to `endOfFile` |
| GrammarExamples.RootVariablesLoop | Tests/MosaicTests/ParserTests.swift:106-136 | the root loop over the three lines records the three declarations in order and no error |
| GrammarExamples.StructFieldsAsWritten | Tests/MosaicTests/ParserTests.swift:41-71 | as written, the struct test's first field `var foo: UInt8` is reported unterminated at `const` on the next line |
| GrammarExamples.TypedDeclarationOnItsLine | Sources/Mosaic/Parser.swift:79-101 | corrected: `var`/`const`, a name, `: T` and a line break read as a declaration with type `T` and no value, ending past the line break |
| GrammarExamples.FirstField | Tests/MosaicTests/ParserTests.swift:41-71 | corrected: `var foo: UInt8` is a variable named `foo` of type UInt8, ending at `const` |
| GrammarExamples.SecondField | Tests/MosaicTests/ParserTests.swift:41-71 | corrected: `const bar: Bool` is a constant named `bar` of type Bool, ending at `}` |
| GrammarExamples.StructFieldsFirstTurn | Sources/Mosaic/Parser.swift:72-75 | the member loop skips the line break after `{` and appends `foo` |
| GrammarExamples.StructFieldsSecondTurn | Sources/Mosaic/Parser.swift:72-75 | the member loop appends `bar` next |
| GrammarExamples.StructFieldsBody | Sources/Mosaic/Parser.swift:72-75 | the member loop gives `foo` then `bar` and stops right after `}` |
| GrammarExamples.StructureDeclarationOf | Sources/Mosaic/Parser.swift:68-77 | `struct`, a name with no generics and `{` give a struct with that name and the members the loop reads, ending where the loop ends |
| GrammarExamples.InSourceStructure | Sources/Mosaic/Parser.swift:53-57 | a root declaration at `struct` is the struct declaration read there |
| GrammarExamples.StructWithFieldsPass | Tests/MosaicTests/ParserTests.swift:41-71 | the only root pass reads the whole struct, up to and including its `}` |
| GrammarExamples.StructWithFieldsParses | Tests/MosaicTests/ParserTests.swift:41-71 | corrected: the test's struct parses to one struct FooBar holding the variable `foo` of type UInt8 and the constant `bar` of type Bool |
| GrammarExamples.RootVariablesParse | Tests/MosaicTests/ParserTests.swift:106-136 | the test's three lines parse to a source file holding, in order, `foo` with a value and no type, the constant `bar` with type and value, and `fizz` with a type and no value |
| Parsing.Parser.constructor | Sources/Mosaic/Parser.swift:3-11 | the lexer is stored; no tokens, no errors, index 0 |
| Parsing.Parser.Parse | Sources/Mosaic/Parser.swift:20-29 | scans the text, seeds the errors with the lexer's, starts at index 0 and returns the corrected `parse` result; the lexer's errors come first in the buffer, and the result is a success exactly when the buffer is empty |
| Parsing.Parser.ParseSourceFile | Sources/Mosaic/Parser.swift:33-52 | the root loop ends where `SourceFileLoopIntended` says, and returns success exactly when no error was recorded |
| Parsing.Parser.ParseRootPass | Sources/Mosaic/Parser.swift:36-44 | one pass of the loop body changes index, declarations and errors as `RootPassIntended` says, so a root `impl` is reported once |
| Parsing.Parser.ParseInSourceDeclaration | Sources/Mosaic/Parser.swift:54-66 | result and index as `Grammar.InSourceDeclaration` |
| Parsing.Parser.ParseStructureDeclaration | Sources/Mosaic/Parser.swift:68-77 | result and index as `Grammar.StructureDeclaration`, so the struct is built as `StructureDeclarationShape` states |
| Parsing.Parser.ParseVariableDeclaration | Sources/Mosaic/Parser.swift:79-101 | result and index as `Grammar.VariableDeclaration`, so the declaration is built as `VariableDeclarationShape` states |
| Parsing.Parser.ParseVariableMutability | Sources/Mosaic/Parser.swift:103-110 | result and index as `Grammar.VariableMutability` |
| Parsing.Parser.ParseTypeDeclaration | Sources/Mosaic/Parser.swift:112-125 | result and index as `Grammar.TypeDeclaration`, so name and generics are as `TypeDeclarationShape` states |
| Parsing.Parser.ParseTypeIdentifier | Sources/Mosaic/Parser.swift:127-138 | result and index as `Grammar.TypeIdentifier`, so name and generics are as `TypeIdentifierShape` states |
| Parsing.Parser.ParseSingleGenericDeclaration | Sources/Mosaic/Parser.swift:140-152 | result and index as `Grammar.SingleGenericDeclaration` |
| Parsing.Parser.ParseSingleGenericIdentifier | Sources/Mosaic/Parser.swift:154-163 | result and index as `Grammar.SingleGenericIdentifier`, so its kind is as `SingleGenericIdentifierShape` states |
| Parsing.Parser.ParseFunctionDeclaration | Sources/Mosaic/Parser.swift:165-192 | result and index as `Grammar.FunctionDeclaration`, so the function is built as `FunctionDeclarationShape` states |
| Parsing.Parser.ParseFunctionParameters | Sources/Mosaic/Parser.swift:170-177 | result and index as `Grammar.FunctionParameters`, which ends on `)` as `FunctionParametersShape` states |
| Parsing.Parser.ParseStatementsBlock | Sources/Mosaic/Parser.swift:198-206 | result and index as `Grammar.StatementsBlock` |
| Parsing.Parser.ParseFunctionParameter | Sources/Mosaic/Parser.swift:194-196 | result and index as the supplied parameter rule |
| Parsing.Parser.ParseStatement | Sources/Mosaic/Parser.swift:208-210 | result and index as the supplied statement rule |
| Parsing.Parser.ParseExpression | Sources/Mosaic/Parser.swift:212-214 | result and index as the supplied expression rule |
| Parsing.Parser.CurrentToken | Sources/Mosaic/Parser.swift:222-225 | requires the index to be in range; gives a token of the list |
| Parsing.Parser.PreviousToken | Sources/Mosaic/Parser.swift:227-230 | requires an index above 0; gives a token of the list |
| Parsing.Parser.SkipNewlines | Sources/Mosaic/Parser.swift:300-304 | the index ends where `Grammar.SkipNewlines` says |
| Parsing.Parser.Match | Sources/Mosaic/Parser.swift:233-242 | answer and index as `Grammar.Match` |
| Parsing.Parser.WillMatch | Sources/Mosaic/Parser.swift:246-268 | does not change the index; the answer is the lookahead that `WillMatchIsPrefix` characterises |
| Parsing.Parser.Consume | Sources/Mosaic/Parser.swift:271-276 | result and index as `Grammar.Consume` |
| Parsing.Parser.ConsumeNext | Sources/Mosaic/Parser.swift:279-286 | result and index as `Grammar.ConsumeNext` |
| Parsing.Parser.VerifyStatementEnd | Sources/Mosaic/Parser.swift:290-298 | consumes nothing; the answer is the corrected `Grammar.VerifyStatementEnd` |
| Parsing.Parser.EmitError | Sources/Mosaic/Parser.swift:306-310 | appends one error at the current token's line and column |
| Parsing.Parser.Synchronize | Sources/Mosaic/Parser.swift:312-321 | the index ends where `Grammar.Synchronize` says |
| Nesting.Nested | Sources/Mosaic/ParseContext.swift:8-12 | the block sees the counter one higher, its result is returned, and the counter is lowered by one afterwards; a balanced block leaves the counter as it was |
| Nesting.BlockRunsInLoop | Sources/Mosaic/ParseContext.swift:2-11 | inside the block the context is in a loop; from a context not in a loop, the block sees depth 1 |
| Nesting.NestedBalanced | Sources/Mosaic/ParseContext.swift:8-12 | nesting a balanced block is itself balanced, so nestings compose |
| Nesting.ThrowRestoresDepth | Sources/Mosaic/ParseContext.swift:10 | when the block throws, the counter is still restored |
| ParseContexts.ParseContext.constructor | Sources/Mosaic/ParseContext.swift:2-6 | a fresh context has counter 0 and is not in a loop |
| ParseContexts.ParseContext.IsInLoop | Sources/Mosaic/ParseContext.swift:2-4 | in a loop exactly when the counter is positive; then the counter is a valid, non-negative one |
| ParseContexts.ParseContext.NestLoop | Sources/Mosaic/ParseContext.swift:8-12 | result and counter as `Nested`; a balanced block leaves the counter unchanged |
| LoopContexts.LoopParseContext.constructor | Sources/Mosaic/LoopContext.swift:2-6 | a fresh context has counter 0 and is not in a loop |
| LoopContexts.LoopParseContext.IsInLoop | Sources/Mosaic/LoopContext.swift:2-4 | in a loop exactly when the counter is positive; then the counter is a valid, non-negative one |
| LoopContexts.LoopParseContext.NestLoop | Sources/Mosaic/LoopContext.swift:8-12 | result and counter as `Nested`; a balanced block leaves the counter unchanged |

## Left out

- Loading a file from disk (`parseFile(at:)` and `scanAllTokens(fileURL:)`) is I/O and is not part of this model.
- The `LexerType` protocol is not part of this model. The parser holds the concrete `Lexer`.
- The parameter, statement and expression rules and `scanIdentifierOrKeyword` have empty bodies in the source:
  - The three parser rules are supplied as a `Rules` value.
  - `Lexing.Lexer.ScanIdentifierOrKeyword` is an empty method. The identifier head it was called for is dropped.
- Character classes are simplified:
  - `isNumber` and `isLetter` cover ASCII only.
  - `isNewline` and `isWhitespace` follow the Unicode tables for single code points.
  - Grapheme clusters are not modelled: a `Character` is one `char`. A CRLF pair is one `Character` in Swift, giving one `newline` token and one line step. In the model, `'\r'` and `'\n'` are each a line break (`Characters.IsNewline`), so CRLF gives two `newline` tokens (`Scanning.ScanStep`) and advances the line by two (`Cursors.Cursor.AdvanceLineAndColumn`).
- Tokens.Token.isTerminatedWithNewline: `makeToken` (Sources/Mosaic/Lexer.swift:48-57) never passes this flag, so every token in the model carries false. The parser tests expect true before line breaks. The parser never reads the flag.
- Swift `Int` overflow is not modelled; indices and line and column counters are unbounded.
- The catch-all branch of `parseSourceFile` that calls `assertionFailure` is not modelled. Every error in the model is a `ParseError`.
- The `fatalError` in `advance` is modelled as a precondition.
- `precondition` calls in `parse`, `currentToken` and `previousToken` are modelled as preconditions or as facts the scan guarantees.
- A `nestLoop` block receives the context itself in Swift. Here it is a function of the counter it observes, giving back its result and the counter it leaves. A block that changes the counter by other means is not modelled.
- Parsing.Parser.IsAtEnd: a predicate without a contract of its own. It means "the current token is `endOfFile`", which is `Grammar.AtEnd`, and the loop contracts are stated with it.
- Grammar.SourceFileLoop: the root loop as written is bounded by a fuel argument, because it does not always end. `None` stands for running out of fuel, which happens for every fuel value exactly when the loop never ends.
- Grammar.TypeIdentifier: its own contract states progress and the name's token type; `TypeIdentifierShape` states its name, generics and closing `>`.
- Grammar.SingleGenericIdentifier: its own contract states progress; `SingleGenericIdentifierShape` states which kind of argument it gives.
- Grammar.GenericIdentifierList: its own contract states progress; `GenericIdentifierListKeeps` and `GenericIdentifierListCloses` state its contents and closing `>`.
- Grammar.GenericDeclarationList: its own contract states progress; `GenericDeclarationListKeeps` and `GenericDeclarationListCloses` state its contents and closing `>`.
- Grammar.TypeDeclaration: its own contract states progress and the name's token type; `TypeDeclarationShape` states its name, generics and closing `>`.
- Grammar.VariableDeclaration: its own contract does not tie the type and value to `:` and `=`; `VariableDeclarationShape` and `VariableTailShape` do.
- Grammar.VariableTail: its own contract states the statement end; `VariableTailShape` ties the type and value to `:` and `=`.
- Grammar.StructBody: its own contract states bounds; `StructBodyCloses` states what it keeps and where it stops.
- Grammar.StructureDeclaration: its own contract states bounds and progress; `StructureDeclarationShape` states what it builds.
- Grammar.ParameterList: its own contract states progress; `ParameterListCloses` states that it ends on `)`.
- Grammar.FunctionParameters: its own contract states progress; `FunctionParametersShape` states the rest.
- Grammar.FunctionDeclaration: its own contract states bounds and progress; `FunctionDeclarationShape` states what it builds.
- The classes use the corrected root loop, the corrected statement-end check and the corrected number scanner. The code as written is kept beside them (see Findings):
  - `Scanning.ScanAsWritten` is the whole lexer as written.
  - `Grammar.VerifyStatementEndAsWritten` and `Grammar.VariableTailAsWritten` are the statement-end check as written.
- Grammar.SourceFileLoop: this is the root loop as written, but it reads declarations with the corrected rules, so the corrected statement-end check applies inside it. `Grammar.ParseTokens` inherits this. The statement-end defect is shown on the declaration rule itself (`TwoDeclarationsAsWritten`), not through the whole parse.

## Findings

| source | as written | input that shows it | evidently intended | confidence | as-written member | corrected member |
|---|---|---|---|---|---|---|
| Sources/Mosaic/Lexer.swift:166-191 | when the text ends inside a number literal, the loop exits and nothing is reported | `123` gives only `endOfFile`; the test at Tests/MosaicTests/LexerTests.swift:52-59 expects an `integerLiteral` | the end of the text ends the literal as whitespace does | not executed | Scanning.NumberStepAsWritten, Scanning.ScanNumberAtEndOfInput, Scanning.ScanAsWrittenNumberExamples | Scanning.NumberStep, Scanning.IntendedNumberExamples, Scanning.NumberStepAgreesAtEnd, Lexing.Lexer.ScanNumberLiteral |
| Sources/Mosaic/Lexer.swift:168-175 | a rejected dot is not added to the lexeme and is left for the next pass | `12.` gives `invalidNumberLiteral("12")` followed by a `dot` token; the test at Tests/MosaicTests/LexerTests.swift:80-87 expects `invalidNumberLiteral("12.")` and no other token | the dot is consumed into the reported lexeme | not executed | Scanning.NumberScanAsWritten, Scanning.ScanNumberWithTrailingDot, Scanning.ScanAsWrittenNumberExamples | Scanning.NumberScan, Scanning.IntendedNumberSteps, Scanning.NumberStepShape, Scanning.NumberStepAgreesAtDot |
| Sources/Mosaic/Parser.swift:35-65 | an `impl` at the root throws without consuming anything, `synchronize` stops on it, and the loop repeats forever | any token list with `impl` after the newlines at the root | every pass of the root loop moves forward | not executed | Grammar.SourceFileLoop, Grammar.ImplAtRootLoopsForever | Grammar.SourceFileLoopIntended, Grammar.ImplAtRootReportedOnce, Grammar.ImplAfterLineBreakReportedOnce, Grammar.SourceFileLoopIntendedAgrees, Parsing.Parser.ParseSourceFile |
| Sources/Mosaic/Parser.swift:84-93 | `match` skips line breaks before it fails: `match(.colon)` and `match(.equal)` after the name, and `match(.lessThan)` after a type name (line 130). So `verifyStatementEnd` no longer sees the line break that ends a declaration with no value | `var x` newline `var y` is reported unterminated at the second `var`. The struct test's `var foo: UInt8` newline `const bar: Bool` (Tests/MosaicTests/ParserTests.swift:41-71) is reported unterminated at `const` | a line break just before the current token also ends the statement | not executed | Grammar.VariableTailAsWritten, Grammar.LostStatementTerminator, Grammar.TypedTerminatorLost, Grammar.TwoDeclarationsAsWritten, GrammarExamples.StructFieldsAsWritten | Grammar.VerifyStatementEnd, Grammar.IntendedTerminatorKept, Grammar.TypedTerminatorKept, Grammar.IntendedTwoDeclarations, GrammarExamples.StructWithFieldsParses |
