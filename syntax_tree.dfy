/** The slice of Python's `ast` that the VCS001 rule reads: statements at the top
    level of a module, the parameters of a definition and the operands of a
    boolean test, each carrying the parser's 1-based line and 0-based column. */
module SyntaxTree {

  datatype Option<T> = None | Some(value: T)

  /** The node classes the rule asks `isinstance` about. */
  datatype Kind = ArgKind | NameKind | BoolOpKind | OtherExprKind

  /** Expression-level nodes: a parameter (`ast.arg`), a name reference
      (`ast.Name`), a boolean operation (`ast.BoolOp`) with its operands, and
      any other expression. */
  datatype Node =
    | Arg(line: int, col: int)
    | Name(line: int, col: int)
    | BoolOp(line: int, col: int, values: seq<Node>)
    | OtherExpr(line: int, col: int)

  function KindOf(n: Node): Kind
  {
    match n
    case Arg(_, _) => ArgKind
    case Name(_, _) => NameKind
    case BoolOp(_, _, _) => BoolOpKind
    case OtherExpr(_, _) => OtherExprKind
  }

  /** Statements of a module or class body. `args` are the positional
      parameters of a definition in declaration order; `test` is the condition
      of an `if`. */
  datatype Stmt =
    | FunctionDef(col: int, args: seq<Node>)
    | AsyncFunctionDef(col: int, args: seq<Node>)
    | ClassDef(body: seq<Stmt>)
    | If(col: int, line: int, endLine: int, test: Node)
    | OtherStmt

  /** Why a check ends in a Python exception instead of a result. */
  datatype Crash =
    | OperatorsUnbound   // the `if` test is not a BoolOp: `operators` is never bound
    | OperandsUnbound    // an operand is not a Name: `operands` is never bound
    | MixRoutineMissing  // a multi-line `if` calls a method that does not exist

  /** What the construct selector and extractor hand back: no construct, the
      elements to check, or the exception that ended the extraction. */
  datatype Extracted =
    | NoConstruct
    | Found(elements: seq<Node>)
    | Crashed(reason: Crash)
}
