/**
 * The abstract syntax tree the parser builds. Declarations take the shape of
 * the parser's own constructor calls; statements and expressions are only
 * produced by the injected statement and expression rules.
 */
module Syntax {
  import opened Wrappers
  import opened Tokens

  /** A primitive literal: its token and kind. */
  datatype Literal = Literal(token: Token, kind: LiteralKind)

  /** A simple identifier. */
  datatype SimpleIdentifier = SimpleIdentifier(token: Token)

  /** A named type with its generic arguments. */
  datatype TypeIdentifier = TypeIdentifier(nameIdentifier: Token, generics: seq<GenericIdentifier>)

  /** A generic argument: a literal value or a type. */
  datatype GenericIdentifier =
    | ValueArgument(literal: Literal)
    | TypeArgument(typeIdentifier: TypeIdentifier)

  /** A declared type with its generic parameters. */
  datatype TypeDeclaration = TypeDeclaration(nameIdentifier: Token, generics: seq<GenericDeclaration>)

  /** A generic parameter: a value generic `'name: Type` or a type generic `Name`. */
  datatype GenericDeclaration =
    | ValueGeneric(name: Token, valueType: TypeIdentifier)
    | TypeGeneric(name: Token)

  datatype Mutability = Constant | Variable

  /** A `var` or `const` declaration with an optional type and initial value. */
  datatype VariableDeclaration = VariableDeclaration(
    mutability: Mutability,
    nameIdentifier: Token,
    typeIdentifier: Option<TypeIdentifier>,
    initialValue: Option<Expression>)

  /** A function parameter. */
  datatype Parameter = Parameter(name: Token, parameterType: TypeIdentifier)

  /** A function declaration: name, parameters, optional return type and body. */
  datatype FuncDeclaration = FuncDeclaration(
    nameIdentifier: Token,
    parameters: seq<Parameter>,
    returnType: Option<TypeIdentifier>,
    statements: seq<Statement>)

  /** A struct declaration: its type and its variables. */
  datatype StructDeclaration = StructDeclaration(structType: TypeDeclaration, variables: seq<VariableDeclaration>)

  /** A declaration allowed at the root of a source file. */
  datatype InSourceDeclaration =
    | StructureDecl(structure: StructDeclaration)
    | FunctionDecl(func: FuncDeclaration)
    | VariableDecl(variable: VariableDeclaration)

  /** A parsed source file: its declarations in order and the endOfFile token. */
  datatype SourceFile = SourceFile(declarations: seq<InSourceDeclaration>, endOfFile: Token)

  datatype Statement =
    | VariableStatement(declaration: VariableDeclaration)
    | ExpressionStatement(expression: Expression)
    | Each(element: Token, collection: Expression, body: seq<Statement>)
    | If(condition: Expression, thenBranch: seq<Statement>, elseBranch: Option<seq<Statement>>)
    | Return(value: Option<Expression>)
    | Break
    | While(condition: Expression, body: seq<Statement>)

  datatype BinaryOperator =
    | LogicOr | LogicAnd | BitwiseOr | BitwiseXor | BitwiseAnd
    | EqualTo | NotEqualTo | Greater | GreaterOrEqual | Less | LessOrEqual
    | LeftShift | RightShift | Add | Subtract | Divide | Multiply | Remainder

  datatype UnaryOperator = Not | Negate

  datatype Expression =
    | Getter(selfToken: Option<Token>, identifiers: seq<SimpleIdentifier>)
    | Binary(left: Expression, right: Expression, binaryOperator: BinaryOperator)
    | Unary(operand: Expression, unaryOperator: UnaryOperator)
    | Primary
}
