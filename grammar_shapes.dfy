/**
 * What a rule that parses has read: for each rule of the grammar, which tokens it matched and
 * where it stopped. Each lemma hides the rules it does not study, so that only the one rule
 * under study unfolds.
 */
module GrammarShapes {
  import opened Wrappers
  import opened Tokens
  import Syntax
  import opened Grammar

  // ---------------------------------------------------------------------------
  // Types

  /** One turn of the generic argument list: after a comma, one argument and the rest of the list. */
  lemma GenericIdentifierListTurn(toks: seq<Token>, i: nat, acc: seq<Syntax.GenericIdentifier>)
    requires InRange(toks, i) && Match(toks, i, Comma).ok
    ensures var g := SingleGenericIdentifier(toks, Match(toks, i, Comma).next);
      g.result.Success? ==> GenericIdentifierList(toks, i, acc) == GenericIdentifierList(toks, g.next, acc + [g.result.value])
    ensures var g := SingleGenericIdentifier(toks, Match(toks, i, Comma).next);
      g.result.Failure? ==> GenericIdentifierList(toks, i, acc).result.Failure?
  {
    hide SingleGenericIdentifier, TypeIdentifier, Consume, ConsumeNext, Match, SkipNewlines, Past, LiteralKindOf;
  }

  /** The generic argument list without a further comma: the closing `>`. */
  lemma GenericIdentifierListEnd(toks: seq<Token>, i: nat, acc: seq<Syntax.GenericIdentifier>)
    requires InRange(toks, i) && !Match(toks, i, Comma).ok
    ensures var p := GenericIdentifierList(toks, i, acc);
      p.result.Success? ==> p.result.value == acc && toks[p.next - 1].tokenType == GreaterThan
  {
    hide SingleGenericIdentifier, TypeIdentifier, ConsumeNext, Match, SkipNewlines, Past, LiteralKindOf;
  }

  /** The generic argument list ends on the closing `>`. */
  lemma {:induction false} GenericIdentifierListCloses(toks: seq<Token>, i: nat, acc: seq<Syntax.GenericIdentifier>)
    requires InRange(toks, i)
    ensures var p := GenericIdentifierList(toks, i, acc);
      p.result.Success? ==> toks[p.next - 1].tokenType == GreaterThan
    decreases |toks| - i
  {
    hide GenericIdentifierList, SingleGenericIdentifier, TypeIdentifier, Consume, ConsumeNext, Match, SkipNewlines, Past, LiteralKindOf;
    var m := Match(toks, i, Comma);
    if m.ok {
      GenericIdentifierListTurn(toks, i, acc);
      var g := SingleGenericIdentifier(toks, m.next);
      if g.result.Success? {
        GenericIdentifierListCloses(toks, g.next, acc + [g.result.value]);
      }
    } else {
      GenericIdentifierListEnd(toks, i, acc);
    }
  }

  /** The generic argument list keeps the arguments read before it and adds one for each comma it matches. */
  lemma {:induction false} GenericIdentifierListKeeps(toks: seq<Token>, i: nat, acc: seq<Syntax.GenericIdentifier>)
    requires InRange(toks, i)
    ensures var p := GenericIdentifierList(toks, i, acc);
      p.result.Success? ==> acc <= p.result.value && |acc| <= |p.result.value|
    ensures var p := GenericIdentifierList(toks, i, acc);
      p.result.Success? ==> (|acc| < |p.result.value| <==> toks[SkipNewlines(toks, i)].tokenType == Comma)
    decreases |toks| - i
  {
    hide GenericIdentifierList, SingleGenericIdentifier, TypeIdentifier, Consume, ConsumeNext, Match, SkipNewlines, Past, LiteralKindOf;
    var m := Match(toks, i, Comma);
    if m.ok {
      GenericIdentifierListTurn(toks, i, acc);
      var g := SingleGenericIdentifier(toks, m.next);
      if g.result.Success? {
        GenericIdentifierListKeeps(toks, g.next, acc + [g.result.value]);
      }
    } else {
      GenericIdentifierListEnd(toks, i, acc);
    }
  }

  /** A type identifier that parses is named by the first token after the newlines. */
  lemma TypeIdentifierName(toks: seq<Token>, i: nat)
    requires InRange(toks, i)
    ensures var p := TypeIdentifier(toks, i);
      p.result.Success? ==> p.result.value.nameIdentifier == toks[SkipNewlines(toks, i)]
  {
    hide SingleGenericIdentifier, GenericIdentifierList, Consume, ConsumeNext, Match, SkipNewlines, Past, LiteralKindOf;
  }

  /** A type identifier that parses has generic arguments exactly when `<` follows its name. */
  lemma TypeIdentifierGenerics(toks: seq<Token>, i: nat)
    requires InRange(toks, i)
    ensures var p := TypeIdentifier(toks, i);
      p.result.Success? ==> (|p.result.value.generics| > 0 <==> toks[SkipNewlines(toks, Past(toks, i))].tokenType == LessThan)
  {
    hide SingleGenericIdentifier, GenericIdentifierList, Consume, ConsumeNext, Match, SkipNewlines, Past, LiteralKindOf;
    var name := Consume(toks, i, Identifier, "Expected name identifier of type");
    if name.result.Success? {
      var lt := Match(toks, name.next, LessThan);
      if lt.ok {
        var g := SingleGenericIdentifier(toks, lt.next);
        if g.result.Success? {
          GenericIdentifierListKeeps(toks, g.next, [g.result.value]);
        }
      }
    }
  }

  /** A type identifier with generic arguments ends on the closing `>`. */
  lemma TypeIdentifierCloses(toks: seq<Token>, i: nat)
    requires InRange(toks, i)
    ensures var p := TypeIdentifier(toks, i);
      p.result.Success? && |p.result.value.generics| > 0 ==> toks[p.next - 1].tokenType == GreaterThan
  {
    hide SingleGenericIdentifier, GenericIdentifierList, Consume, ConsumeNext, Match, SkipNewlines, Past, LiteralKindOf;
    var p := TypeIdentifier(toks, i);
    var name := Consume(toks, i, Identifier, "Expected name identifier of type");
    if name.result.Success? {
      var lt := Match(toks, name.next, LessThan);
      if lt.ok {
        var g := SingleGenericIdentifier(toks, lt.next);
        if g.result.Success? {
          var list := GenericIdentifierList(toks, g.next, [g.result.value]);
          GenericIdentifierListCloses(toks, g.next, [g.result.value]);
          assert p.result.Success? ==> p.next == list.next && list.result.Success?;
        }
      } else {
        assert p.result.Success? ==> p.result.value.generics == [];
      }
    }
  }

  /** A type identifier that parses is named by the first token after the newlines; it has generic
      arguments exactly when `<` follows that name, and then it ends on the closing `>`. */
  lemma TypeIdentifierShape(toks: seq<Token>, i: nat)
    requires InRange(toks, i)
    ensures var p := TypeIdentifier(toks, i);
      p.result.Success? ==>
        && p.result.value.nameIdentifier == toks[SkipNewlines(toks, i)]
        && (|p.result.value.generics| > 0 <==> toks[SkipNewlines(toks, Past(toks, i))].tokenType == LessThan)
        && (|p.result.value.generics| > 0 ==> toks[p.next - 1].tokenType == GreaterThan)
  {
    TypeIdentifierName(toks, i);
    TypeIdentifierGenerics(toks, i);
    TypeIdentifierCloses(toks, i);
  }

  /** A generic argument is a value exactly when the first token after the newlines is a literal,
      and then it is that one token with its literal kind; otherwise it is a type named by that token. */
  lemma SingleGenericIdentifierShape(toks: seq<Token>, i: nat)
    requires InRange(toks, i)
    ensures var p := SingleGenericIdentifier(toks, i);
      var t := toks[SkipNewlines(toks, i)];
      p.result.Success? ==>
        && (p.result.value.ValueArgument? <==> LiteralKindOf(t.tokenType).Some?)
        && (p.result.value.ValueArgument? ==>
              p.result.value.literal == Syntax.Literal(t, LiteralKindOf(t.tokenType).value) && p.next == Past(toks, i))
        && (p.result.value.TypeArgument? ==> p.result.value.typeIdentifier.nameIdentifier == t)
  {
    hide TypeIdentifier, GenericIdentifierList, Consume, SkipNewlines, Past;
    SkipNewlinesIdempotent(toks, i);
    TypeIdentifierShape(toks, SkipNewlines(toks, i));
  }

  /** One turn of the generic parameter list: after a comma, one parameter and the rest of the list. */
  lemma GenericDeclarationListTurn(toks: seq<Token>, i: nat, acc: seq<Syntax.GenericDeclaration>)
    requires InRange(toks, i) && Match(toks, i, Comma).ok
    ensures var g := SingleGenericDeclaration(toks, Match(toks, i, Comma).next);
      g.result.Success? ==> GenericDeclarationList(toks, i, acc) == GenericDeclarationList(toks, g.next, acc + [g.result.value])
    ensures var g := SingleGenericDeclaration(toks, Match(toks, i, Comma).next);
      g.result.Failure? ==> GenericDeclarationList(toks, i, acc).result.Failure?
  {
    hide SingleGenericDeclaration, TypeIdentifier, Consume, Match, SkipNewlines, Past;
  }

  /** The generic parameter list ends on the closing `>`. */
  lemma {:induction false} GenericDeclarationListCloses(toks: seq<Token>, i: nat, acc: seq<Syntax.GenericDeclaration>)
    requires InRange(toks, i)
    ensures var p := GenericDeclarationList(toks, i, acc);
      p.result.Success? ==> toks[p.next - 1].tokenType == GreaterThan
    decreases |toks| - i
  {
    hide GenericDeclarationList, SingleGenericDeclaration, TypeIdentifier, Consume, Match, SkipNewlines, Past;
    var m := Match(toks, i, Comma);
    if m.ok {
      GenericDeclarationListTurn(toks, i, acc);
      var g := SingleGenericDeclaration(toks, m.next);
      if g.result.Success? {
        GenericDeclarationListCloses(toks, g.next, acc + [g.result.value]);
      }
    } else {
      GenericDeclarationListEnd(toks, i, acc);
    }
  }

  /** The generic parameter list without a further comma: the closing `>`. */
  lemma GenericDeclarationListEnd(toks: seq<Token>, i: nat, acc: seq<Syntax.GenericDeclaration>)
    requires InRange(toks, i) && !Match(toks, i, Comma).ok
    ensures var p := GenericDeclarationList(toks, i, acc);
      p.result.Success? ==> p.result.value == acc && toks[p.next - 1].tokenType == GreaterThan
  {
    hide SingleGenericDeclaration, TypeIdentifier, Match, SkipNewlines, Past;
  }

  /** The generic parameter list keeps the parameters read before it and adds one for each comma it matches. */
  lemma {:induction false} GenericDeclarationListKeeps(toks: seq<Token>, i: nat, acc: seq<Syntax.GenericDeclaration>)
    requires InRange(toks, i)
    ensures var p := GenericDeclarationList(toks, i, acc);
      p.result.Success? ==> acc <= p.result.value && |acc| <= |p.result.value|
    ensures var p := GenericDeclarationList(toks, i, acc);
      p.result.Success? ==> (|acc| < |p.result.value| <==> toks[SkipNewlines(toks, i)].tokenType == Comma)
    decreases |toks| - i
  {
    hide GenericDeclarationList, SingleGenericDeclaration, TypeIdentifier, Consume, Match, SkipNewlines, Past;
    var m := Match(toks, i, Comma);
    if m.ok {
      GenericDeclarationListTurn(toks, i, acc);
      var g := SingleGenericDeclaration(toks, m.next);
      if g.result.Success? {
        GenericDeclarationListKeeps(toks, g.next, acc + [g.result.value]);
      }
    } else {
      GenericDeclarationListEnd(toks, i, acc);
    }
  }

  /** A type declaration that parses is named by the first token after the newlines. */
  lemma TypeDeclarationName(toks: seq<Token>, i: nat)
    requires InRange(toks, i)
    ensures var p := TypeDeclaration(toks, i);
      p.result.Success? ==> p.result.value.nameIdentifier == toks[SkipNewlines(toks, i)]
  {
    hide SingleGenericDeclaration, GenericDeclarationList, TypeIdentifier, Consume, Match, SkipNewlines, Past;
  }

  /** A type declaration that parses has generic parameters exactly when `<` follows its name. */
  lemma TypeDeclarationGenerics(toks: seq<Token>, i: nat)
    requires InRange(toks, i)
    ensures var p := TypeDeclaration(toks, i);
      p.result.Success? ==> (|p.result.value.generics| > 0 <==> toks[SkipNewlines(toks, Past(toks, i))].tokenType == LessThan)
  {
    hide SingleGenericDeclaration, GenericDeclarationList, TypeIdentifier, Consume, Match, SkipNewlines, Past;
    var name := Consume(toks, i, Identifier, "Expected name identifier of type");
    if name.result.Success? {
      var lt := Match(toks, name.next, LessThan);
      if lt.ok {
        var g := SingleGenericDeclaration(toks, lt.next);
        if g.result.Success? {
          GenericDeclarationListKeeps(toks, g.next, [g.result.value]);
        }
      }
    }
  }

  /** A type declaration with generic parameters ends on the closing `>`. */
  lemma TypeDeclarationCloses(toks: seq<Token>, i: nat)
    requires InRange(toks, i)
    ensures var p := TypeDeclaration(toks, i);
      p.result.Success? && |p.result.value.generics| > 0 ==> toks[p.next - 1].tokenType == GreaterThan
  {
    hide SingleGenericDeclaration, GenericDeclarationList, TypeIdentifier, Consume, Match, SkipNewlines, Past;
    var p := TypeDeclaration(toks, i);
    var name := Consume(toks, i, Identifier, "Expected name identifier of type");
    if name.result.Success? {
      var lt := Match(toks, name.next, LessThan);
      if lt.ok {
        var g := SingleGenericDeclaration(toks, lt.next);
        if g.result.Success? {
          var list := GenericDeclarationList(toks, g.next, [g.result.value]);
          GenericDeclarationListCloses(toks, g.next, [g.result.value]);
          assert p.result.Success? ==> p.next == list.next && list.result.Success?;
        }
      } else {
        assert p.result.Success? ==> p.result.value.generics == [];
      }
    }
  }

  /** A type declaration that parses is named by the first token after the newlines; it has generic
      parameters exactly when `<` follows that name, and then it ends on the closing `>`. */
  lemma TypeDeclarationShape(toks: seq<Token>, i: nat)
    requires InRange(toks, i)
    ensures var p := TypeDeclaration(toks, i);
      p.result.Success? ==>
        && p.result.value.nameIdentifier == toks[SkipNewlines(toks, i)]
        && (|p.result.value.generics| > 0 <==> toks[SkipNewlines(toks, Past(toks, i))].tokenType == LessThan)
        && (|p.result.value.generics| > 0 ==> toks[p.next - 1].tokenType == GreaterThan)
  {
    TypeDeclarationName(toks, i);
    TypeDeclarationGenerics(toks, i);
    TypeDeclarationCloses(toks, i);
  }

  // ---------------------------------------------------------------------------
  // Declarations

  /** After a variable's name, the type is present exactly when `:` is matched, and is the type
      identifier read after it; the initial value is present exactly when `=` is matched after
      that, and is the expression read after it, where the tail stops. */
  lemma VariableTailShape(rules: Rules, toks: seq<Token>, i: nat)
    requires InRange(toks, i) && rules.Valid()
    ensures var p := VariableTail(rules, toks, i);
      var colon := Match(toks, i, Colon);
      p.result.Success? ==>
        && (p.result.value.0.Some? <==> colon.ok)
        && (colon.ok ==> TypeIdentifier(toks, colon.next).result == Success(p.result.value.0.value))
        && var typeEnd := if colon.ok then TypeIdentifier(toks, colon.next).next else colon.next;
           var equal := Match(toks, typeEnd, Equal);
           && (p.result.value.1.Some? <==> equal.ok)
           && (equal.ok ==> rules.expression(toks, equal.next).result == Success(p.result.value.1.value))
           && p.next == (if equal.ok then rules.expression(toks, equal.next).next else equal.next)
  {
    hide TypeIdentifier, SingleGenericIdentifier, GenericIdentifierList, Match, SkipNewlines, Past, VerifyStatementEnd, Rules.Valid;
  }

  /** A variable declaration that parses starts with `var` or `const`, and is a variable exactly
      for `var`. */
  lemma VariableDeclarationKeyword(rules: Rules, toks: seq<Token>, i: nat)
    requires InRange(toks, i) && rules.Valid()
    ensures var p := VariableDeclaration(rules, toks, i);
      p.result.Success? ==>
        && IsMutabilityKeyword(toks[SkipNewlines(toks, i)].tokenType)
        && (p.result.value.mutability == Syntax.Variable <==> toks[SkipNewlines(toks, i)].tokenType == KeywordVar)
  {
    hide VariableTail, VariableMutability, Consume, Match, SkipNewlines, Past, Rules.Valid;
    var p := VariableDeclaration(rules, toks, i);
    if p.result.Success? {
      assert VariableMutability(toks, i).result == Success(p.result.value.mutability);
    }
  }

  /** A variable declaration that parses is named by the token after its keyword. */
  lemma VariableDeclarationName(rules: Rules, toks: seq<Token>, i: nat)
    requires InRange(toks, i) && rules.Valid()
    ensures var p := VariableDeclaration(rules, toks, i);
      p.result.Success? ==>
        && IsMutabilityKeyword(toks[SkipNewlines(toks, i)].tokenType)
        && p.result.value.nameIdentifier == toks[SkipNewlines(toks, Past(toks, i))]
  {
    hide VariableTail, VariableMutability, Consume, Match, SkipNewlines, Past, Rules.Valid;
    var p := VariableDeclaration(rules, toks, i);
    if p.result.Success? {
      var mutability := VariableMutability(toks, i);
      assert mutability.result.Success?;
      assert Consume(toks, mutability.next, Identifier, "Expected variable name identifier").result == Success(p.result.value.nameIdentifier);
    }
  }

  /** A variable declaration's type and initial value are what the tail after its name reads, and
      it stops where that tail stops. */
  lemma VariableDeclarationTail(rules: Rules, toks: seq<Token>, i: nat)
    requires InRange(toks, i) && rules.Valid()
    ensures var p := VariableDeclaration(rules, toks, i);
      var mutability := VariableMutability(toks, i);
      var name := Consume(toks, mutability.next, Identifier, "Expected variable name identifier");
      p.result.Success? ==>
        && name.result.Success?
        && VariableTail(rules, toks, name.next) == Parsed(Success((p.result.value.typeIdentifier, p.result.value.initialValue)), p.next)
  {
    hide VariableTail, VariableMutability, Consume, Match, SkipNewlines, Past, Rules.Valid;
    var p := VariableDeclaration(rules, toks, i);
    if p.result.Success? {
      var mutability := VariableMutability(toks, i);
      var name := Consume(toks, mutability.next, Identifier, "Expected variable name identifier");
      var tail := VariableTail(rules, toks, name.next);
      assert tail.result.Success? && p.next == tail.next;
      assert p.result.value.typeIdentifier == tail.result.value.0;
      assert p.result.value.initialValue == tail.result.value.1;
    }
  }

  /** A variable declaration that parses starts with `var` or `const` (a variable exactly for
      `var`), is named by the token after it, and its type and initial value are what the tail
      after the name reads: the type is present exactly when `:` follows the name. */
  lemma VariableDeclarationShape(rules: Rules, toks: seq<Token>, i: nat)
    requires InRange(toks, i) && rules.Valid()
    ensures var p := VariableDeclaration(rules, toks, i);
      p.result.Success? ==>
        && IsMutabilityKeyword(toks[SkipNewlines(toks, i)].tokenType)
        && (p.result.value.mutability == Syntax.Variable <==> toks[SkipNewlines(toks, i)].tokenType == KeywordVar)
        && p.result.value.nameIdentifier == toks[SkipNewlines(toks, Past(toks, i))]
        && var tail := VariableTail(rules, toks, Past(toks, Past(toks, i)));
           && tail == Parsed(Success((p.result.value.typeIdentifier, p.result.value.initialValue)), p.next)
           && (p.result.value.typeIdentifier.Some? <==> Match(toks, Past(toks, Past(toks, i)), Colon).ok)
  {
    VariableDeclarationKeyword(rules, toks, i);
    VariableDeclarationName(rules, toks, i);
    VariableDeclarationTail(rules, toks, i);
    hide VariableDeclaration, VariableTail, VariableMutability, Consume, Match, SkipNewlines, Past, Rules.Valid;
    var p := VariableDeclaration(rules, toks, i);
    if p.result.Success? {
      var mutability := VariableMutability(toks, i);
      VariableTailShape(rules, toks, Past(toks, Past(toks, i)));
    }
  }

  /** One turn of a struct's member loop: not at the end and no `}`, one variable declaration and
      the rest of the loop. */
  lemma StructBodyTurn(rules: Rules, toks: seq<Token>, i: nat, acc: seq<Syntax.VariableDeclaration>)
    requires InRange(toks, i) && rules.Valid() && !AtEnd(toks, i) && !Match(toks, i, TrailingBrace).ok
    ensures var v := VariableDeclaration(rules, toks, Match(toks, i, TrailingBrace).next);
      v.result.Success? ==> StructBody(rules, toks, i, acc) == StructBody(rules, toks, v.next, acc + [v.result.value])
    ensures var v := VariableDeclaration(rules, toks, Match(toks, i, TrailingBrace).next);
      v.result.Failure? ==> StructBody(rules, toks, i, acc).result.Failure?
  {
    hide VariableDeclaration, Match, SkipNewlines, Rules.Valid;
  }

  /** A struct's member loop at endOfFile or at a `}`: it stops with the members read so far, at
      endOfFile or right after the `}`. */
  lemma StructBodyEnd(rules: Rules, toks: seq<Token>, i: nat, acc: seq<Syntax.VariableDeclaration>)
    requires InRange(toks, i) && rules.Valid() && (AtEnd(toks, i) || Match(toks, i, TrailingBrace).ok)
    ensures var p := StructBody(rules, toks, i, acc);
      && p.result == Success(acc)
      && (AtEnd(toks, p.next) || (i < p.next && toks[p.next - 1].tokenType == TrailingBrace))
  {
    hide VariableDeclaration, Match, SkipNewlines, Rules.Valid;
  }

  /** A struct's member loop that succeeds keeps the members read before it, and stops at
      endOfFile or right after the `}` it matched. */
  lemma {:induction false} StructBodyCloses(rules: Rules, toks: seq<Token>, i: nat, acc: seq<Syntax.VariableDeclaration>)
    requires InRange(toks, i) && rules.Valid()
    ensures var p := StructBody(rules, toks, i, acc);
      p.result.Success? ==>
        && acc <= p.result.value
        && (AtEnd(toks, p.next) || (i < p.next && toks[p.next - 1].tokenType == TrailingBrace))
    decreases |toks| - i
  {
    hide StructBody, VariableDeclaration, Match, SkipNewlines, Rules.Valid;
    if AtEnd(toks, i) || Match(toks, i, TrailingBrace).ok {
      StructBodyEnd(rules, toks, i, acc);
    } else {
      StructBodyTurn(rules, toks, i, acc);
      var v := VariableDeclaration(rules, toks, Match(toks, i, TrailingBrace).next);
      if v.result.Success? {
        StructBodyCloses(rules, toks, v.next, acc + [v.result.value]);
      }
    }
  }

  /** A struct declaration that parses starts with `struct`; its type is the type declaration read
      after it; a `{` follows the type; and its variables are what the member loop after `{`
      reads, where the declaration stops. */
  lemma StructureDeclarationParts(rules: Rules, toks: seq<Token>, i: nat)
    requires InRange(toks, i) && rules.Valid()
    ensures var p := StructureDeclaration(rules, toks, i);
      p.result.Success? ==>
        && toks[SkipNewlines(toks, i)].tokenType == KeywordStruct
        && var t := TypeDeclaration(toks, Past(toks, i));
           && t.result == Success(p.result.value.structType)
           && toks[SkipNewlines(toks, t.next)].tokenType == LeadingBrace
           && StructBody(rules, toks, Past(toks, t.next), []) == Parsed(Success(p.result.value.variables), p.next)
  {
    hide TypeDeclaration, StructBody, Consume, Match, SkipNewlines, Past, Rules.Valid;
    var p := StructureDeclaration(rules, toks, i);
    if p.result.Success? {
      var keyword := Consume(toks, i, KeywordStruct, "Expected 'struct' keyword");
      assert keyword.result.Success?;
      var t := TypeDeclaration(toks, keyword.next);
      assert t.result == Success(p.result.value.structType);
      var open := Consume(toks, t.next, LeadingBrace, "Expected '{' after struct type");
      assert open.result.Success?;
      assert StructBody(rules, toks, open.next, []) == Parsed(Success(p.result.value.variables), p.next);
    }
  }

  /** A struct declaration that parses starts with `struct`; its type is the type declaration read
      after it, named by the token after `struct`; a `{` follows the type; its variables are what
      the member loop after `{` reads; and it stops at endOfFile or right after its `}`. */
  lemma StructureDeclarationShape(rules: Rules, toks: seq<Token>, i: nat)
    requires InRange(toks, i) && rules.Valid()
    ensures var p := StructureDeclaration(rules, toks, i);
      p.result.Success? ==>
        && toks[SkipNewlines(toks, i)].tokenType == KeywordStruct
        && var t := TypeDeclaration(toks, Past(toks, i));
           && t.result == Success(p.result.value.structType)
           && p.result.value.structType.nameIdentifier == toks[SkipNewlines(toks, Past(toks, i))]
           && toks[SkipNewlines(toks, t.next)].tokenType == LeadingBrace
           && StructBody(rules, toks, Past(toks, t.next), []) == Parsed(Success(p.result.value.variables), p.next)
           && (AtEnd(toks, p.next) || toks[p.next - 1].tokenType == TrailingBrace)
  {
    hide StructureDeclaration, TypeDeclaration, StructBody, Consume, Match, SkipNewlines, Past, Rules.Valid;
    StructureDeclarationParts(rules, toks, i);
    var p := StructureDeclaration(rules, toks, i);
    if p.result.Success? {
      var t := TypeDeclaration(toks, Past(toks, i));
      TypeDeclarationName(toks, Past(toks, i));
      var body := StructBody(rules, toks, Past(toks, t.next), []);
      StructBodyCloses(rules, toks, Past(toks, t.next), []);
      assert body.next == p.next && body.result.Success?;
    }
  }

  /** One turn of the parameter list: after a comma, one parameter and the rest of the list. */
  lemma ParameterListTurn(rules: Rules, toks: seq<Token>, i: nat, acc: seq<Syntax.Parameter>)
    requires InRange(toks, i) && rules.Valid() && Match(toks, i, Comma).ok
    ensures var q := rules.parameter(toks, Match(toks, i, Comma).next);
      q.result.Success? ==> ParameterList(rules, toks, i, acc) == ParameterList(rules, toks, q.next, acc + [q.result.value])
    ensures var q := rules.parameter(toks, Match(toks, i, Comma).next);
      q.result.Failure? ==> ParameterList(rules, toks, i, acc).result.Failure?
  {
    hide Consume, Match, SkipNewlines, Rules.Valid;
  }

  /** The parameter list without a further comma: the closing `)`. */
  lemma ParameterListEnd(rules: Rules, toks: seq<Token>, i: nat, acc: seq<Syntax.Parameter>)
    requires InRange(toks, i) && rules.Valid() && !Match(toks, i, Comma).ok
    ensures var p := ParameterList(rules, toks, i, acc);
      p.result.Success? ==> p.result.value == acc && toks[p.next - 1].tokenType == TrailingParen
  {
    hide Match, SkipNewlines, Rules.Valid;
  }

  /** The parameter list keeps the parameters read before it and ends on the closing `)`. */
  lemma {:induction false} ParameterListCloses(rules: Rules, toks: seq<Token>, i: nat, acc: seq<Syntax.Parameter>)
    requires InRange(toks, i) && rules.Valid()
    ensures var p := ParameterList(rules, toks, i, acc);
      p.result.Success? ==> acc <= p.result.value && toks[p.next - 1].tokenType == TrailingParen
    decreases |toks| - i
  {
    hide ParameterList, Consume, Match, SkipNewlines;
    var m := Match(toks, i, Comma);
    if m.ok {
      ParameterListTurn(rules, toks, i, acc);
      var q := rules.parameter(toks, m.next);
      if q.result.Success? {
        ParameterListCloses(rules, toks, q.next, acc + [q.result.value]);
      }
    } else {
      ParameterListEnd(rules, toks, i, acc);
    }
  }

  /** The parameters after `(` end on the closing `)`, and there are none exactly when `)` comes first. */
  lemma FunctionParametersShape(rules: Rules, toks: seq<Token>, i: nat)
    requires InRange(toks, i) && rules.Valid()
    ensures var p := FunctionParameters(rules, toks, i);
      p.result.Success? ==>
        && toks[p.next - 1].tokenType == TrailingParen
        && (|p.result.value| == 0 <==> Match(toks, i, TrailingParen).ok)
  {
    hide ParameterList, Match, SkipNewlines;
    var empty := Match(toks, i, TrailingParen);
    if !empty.ok {
      var first := rules.parameter(toks, empty.next);
      if first.result.Success? {
        ParameterListCloses(rules, toks, first.next, [first.result.value]);
      }
    }
  }

  /** A function declaration that parses starts with `func`, is named by the identifier after it,
      a `(` follows the name, and its parameters are what is read after that `(`. */
  lemma FunctionDeclarationHead(rules: Rules, toks: seq<Token>, i: nat)
    requires InRange(toks, i) && rules.Valid()
    ensures var p := FunctionDeclaration(rules, toks, i);
      p.result.Success? ==>
        && toks[SkipNewlines(toks, i)].tokenType == KeywordFunc
        && p.result.value.nameIdentifier == toks[SkipNewlines(toks, Past(toks, i))]
        && p.result.value.nameIdentifier.tokenType == Identifier
        && toks[SkipNewlines(toks, Past(toks, Past(toks, i)))].tokenType == LeadingParen
        && FunctionParameters(rules, toks, Past(toks, Past(toks, Past(toks, i)))).result == Success(p.result.value.parameters)
  {
    hide FunctionParameters, TypeIdentifier, StatementsBlock, Present, Consume, Match, SkipNewlines, Past, Rules.Valid;
    var p := FunctionDeclaration(rules, toks, i);
    var keyword := Consume(toks, i, KeywordFunc, "Expected 'func' keyword");
    if keyword.result.Failure? {
      assert p.result.Failure?;
    } else {
      var name := Consume(toks, keyword.next, Identifier, "Expected function name identifier after 'func' keyword");
      if name.result.Failure? {
        assert p.result.Failure?;
      } else {
        var open := Consume(toks, name.next, LeadingParen, "Expected '(' after function name");
        if open.result.Failure? {
          assert p.result.Failure?;
        } else {
          var parameters := FunctionParameters(rules, toks, open.next);
          if parameters.result.Failure? {
            assert p.result.Failure?;
          } else if p.result.Success? {
            assert p.result.value.nameIdentifier == name.result.value;
            assert p.result.value.parameters == parameters.result.value;
          }
        }
      }
    }
  }

  /** A function declaration that parses, part by part: `func`, the name, `(`, the parameters read
      after it; then the return type, present exactly when `->` is matched after the parameters and
      read after it; then the block of statements, where the declaration stops. */
  lemma FunctionDeclarationParts(rules: Rules, toks: seq<Token>, i: nat)
    requires InRange(toks, i) && rules.Valid()
    ensures var p := FunctionDeclaration(rules, toks, i);
      p.result.Success? ==>
        && toks[SkipNewlines(toks, i)].tokenType == KeywordFunc
        && p.result.value.nameIdentifier == toks[SkipNewlines(toks, Past(toks, i))]
        && p.result.value.nameIdentifier.tokenType == Identifier
        && toks[SkipNewlines(toks, Past(toks, Past(toks, i)))].tokenType == LeadingParen
        && (var params := FunctionParameters(rules, toks, Past(toks, Past(toks, Past(toks, i))));
            var arrow := Match(toks, params.next, ReturnArrow);
            && params.result == Success(p.result.value.parameters)
            && (p.result.value.returnType.Some? <==> arrow.ok)
            && (arrow.ok ==> TypeIdentifier(toks, arrow.next).result == Success(p.result.value.returnType.value))
            && (var bodyStart := if arrow.ok then TypeIdentifier(toks, arrow.next).next else arrow.next;
                StatementsBlock(rules, toks, bodyStart) == Parsed(Success(p.result.value.statements), p.next)))
  {
    hide FunctionParameters, TypeIdentifier, StatementsBlock, Present, Consume, Match, SkipNewlines, Past, Rules.Valid;
    FunctionDeclarationHead(rules, toks, i);
    var p := FunctionDeclaration(rules, toks, i);
    var keyword := Consume(toks, i, KeywordFunc, "Expected 'func' keyword");
    var name := Consume(toks, keyword.next, Identifier, "Expected function name identifier after 'func' keyword");
    var open := Consume(toks, name.next, LeadingParen, "Expected '(' after function name");
    if p.result.Success? {
      assert keyword.result.Success? && name.result.Success? && open.result.Success?;
      assert open.next == Past(toks, Past(toks, Past(toks, i)));
      var params := FunctionParameters(rules, toks, open.next);
      assert params.result.Success?;
      var arrow := Match(toks, params.next, ReturnArrow);
      var returned := if arrow.ok then Present(TypeIdentifier(toks, arrow.next)) else Parsed(Success(None), arrow.next);
      assert returned.result.Success?;
      var body := StatementsBlock(rules, toks, returned.next);
      assert body.result.Success?;
      assert p == Parsed(Success(Syntax.FuncDeclaration(name.result.value, params.result.value, returned.result.value, body.result.value)), body.next);
    }
  }

  /** A function declaration that parses, part by part as in FunctionDeclarationParts; its
      parameters end on `)` and its block on the `}` where the declaration stops. */
  lemma FunctionDeclarationShape(rules: Rules, toks: seq<Token>, i: nat)
    requires InRange(toks, i) && rules.Valid()
    ensures var p := FunctionDeclaration(rules, toks, i);
      p.result.Success? ==>
        && toks[SkipNewlines(toks, i)].tokenType == KeywordFunc
        && p.result.value.nameIdentifier == toks[SkipNewlines(toks, Past(toks, i))]
        && p.result.value.nameIdentifier.tokenType == Identifier
        && toks[SkipNewlines(toks, Past(toks, Past(toks, i)))].tokenType == LeadingParen
        && (var params := FunctionParameters(rules, toks, Past(toks, Past(toks, Past(toks, i))));
            var arrow := Match(toks, params.next, ReturnArrow);
            && params.result == Success(p.result.value.parameters)
            && (p.result.value.returnType.Some? <==> arrow.ok)
            && (arrow.ok ==> TypeIdentifier(toks, arrow.next).result == Success(p.result.value.returnType.value))
            && (var bodyStart := if arrow.ok then TypeIdentifier(toks, arrow.next).next else arrow.next;
                StatementsBlock(rules, toks, bodyStart) == Parsed(Success(p.result.value.statements), p.next)))
        && toks[FunctionParameters(rules, toks, Past(toks, Past(toks, Past(toks, i)))).next - 1].tokenType == TrailingParen
        && toks[p.next - 1].tokenType == TrailingBrace
  {
    hide FunctionDeclaration, FunctionParameters, TypeIdentifier, StatementsBlock, Consume, Match, SkipNewlines, Past, Rules.Valid;
    FunctionDeclarationParts(rules, toks, i);
    var p := FunctionDeclaration(rules, toks, i);
    if p.result.Success? {
      var params := FunctionParameters(rules, toks, Past(toks, Past(toks, Past(toks, i))));
      FunctionParametersShape(rules, toks, Past(toks, Past(toks, Past(toks, i))));
      var arrow := Match(toks, params.next, ReturnArrow);
      var bodyStart := if arrow.ok then TypeIdentifier(toks, arrow.next).next else arrow.next;
      StatementsBlockClosesBrace(rules, toks, bodyStart);
    }
  }
}
