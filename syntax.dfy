/** The parts of a component script's syntax tree that the converters look at.
    Texts (`text`, `leading` trivia) are the exact source slices the tree
    reports; `typeText` is what the TypeScript checker prints for an
    expression's inferred type and is taken as given. Where a converter asks
    the node locator for "the first node of kind X", the answer is carried as
    a field, because the locator itself is not part of this model. */
module Syntax {
  import opened Util

  /** An expression: its kind, the trivia before it, its text, and its inferred type text. */
  datatype Expr = Expr(kind: ExprKind, leading: string, text: string, typeText: string)

  datatype ExprKind =
    | Identifier
    | TrueKeyword
    | FalseKeyword
    | ObjectLiteral(members: seq<Member>)
    | ArrayLiteral
    | Parenthesized(inner: Expr)
      /** `firstReturn` is the value of the first return statement the node
          locator finds anywhere inside the arrow: None when there is none,
          Some(None) for a bare `return;`. */
    | ArrowFunction(body: ArrowBody, firstReturn: Option<Option<Expr>>)
    | AsExpression(target: CastTarget)
    | OtherExpression

  datatype ArrowBody = BlockBody(statements: seq<Statement>) | ExpressionBody(expr: Expr)

  /** The type written after `as`: a type reference with its first type
      argument's inferred type text (None when it has no type argument),
      or any other type node. */
  datatype CastTarget = TypeReference(firstArgument: Option<string>) | OtherType

  /** A statement with its full text (leading trivia included). */
  datatype Statement =
    | ReturnStatement(value: Option<Expr>, fullText: string)
    | OtherStatement(fullText: string)

  /** A member of an object literal. `leading` + `text` is its full text. */
  datatype Member =
    | PropertyAssignment(name: string, init: Expr, leading: string, text: string)
    | ShorthandAssignment(name: string, leading: string, text: string)
    | MethodDeclaration(name: string, body: Option<seq<Statement>>, leading: string, text: string)
    | OtherMember(leading: string, text: string)

  function FullText(m: Member): string {
    m.leading + m.text
  }

  predicate IsObjectOrArray(e: Expr) {
    e.kind.ObjectLiteral? || e.kind.ArrayLiteral?
  }

  /** A parameter of the setup method: the name it reports (for a
      destructured parameter this is the pattern's text) and, when it is an
      object binding pattern, the names of its elements. */
  datatype Parameter = Parameter(name: string, bindingNames: Option<seq<string>>)

  /** The setup method: its parameters and the block the node locator finds in it. */
  datatype SetupMethod = SetupMethod(parameters: seq<Parameter>, block: Option<seq<Statement>>)

  /** The `props` property assignment of the options object. */
  datatype PropsAssignment = PropsAssignment(initializer: Option<Expr>)

  /** The component-definition call, with what the node locator reports for
      it: the `props` option and the first method declaration inside it. */
  datatype CallExpression = CallExpression(
    callee: Expr,
    arguments: seq<Expr>,
    propsOption: Option<PropsAssignment>,
    setupMethod: Option<SetupMethod>)
}
